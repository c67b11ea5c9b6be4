# Verified models of the repository's hardest algorithms and protocols

Dafny models of ten pieces of the Labbai repository, each proved against a
specification that says what the piece is for. `dafny verify dfyconfig.toml`
checks everything.

| part | files |
|---|---|
| dominator analysis of an import graph | `ImportGraph`, `Walk`, `DepthFirst`, `DominatorTree`, `DominatorPass`, `DominatorFixpoint`, `DominatorWeight`, `Dominators`, `Gateways` |
| knowledge projection protocol | `ProjectionModel`, `ProjectionProtocol`, `ProjectionReuse`, `ProjectionRefinement`, `ProjectionCounts`, `ProjectionRun`, `ProjectionFill`, `ProjectionPass` |
| OAuth token lifecycle | `OAuthTables`, `OAuthLifecycle`, `OAuthRotation`, `OAuthStore` |
| static resolution of object spreads | `ObjectExpressions`, `SpreadResolution`, `SpreadResolver`, `SpreadSoundness`, `SpreadCompleteness`, `SpreadExactness` |
| guarded import graphs | `GuardedGraph` |
| block successors | `BlockSuccessors` |
| Date bindings | `DateBinding` |
| SQL statement splitting | `SqlScanner`, `SqlRoundTrip`, `SqlReading`, `SqlLastLine`, `SqlClosing` |
| SVG path data | `IconPaths`, `PathGrammar`, `PathAcceptance`, `PathErrors` |
| credential-group policies | `PolicyDocuments`, `OrganizationPolicies`, `PolicyStore`, `PolicyReconciliation`, `PolicyPaging` |

Two small modules serve several parts: `Wrappers` (absent values, errors, sets)
and `Whitespace` (JavaScript's `trim`).

## What is modelled, and on what assumptions

**Dominators.** A module is a number and `depsOf` an arbitrary finite map; cycles
and self-imports are allowed. The loops, in-place maps and the sweep are the
source's. The termination measure of the fixpoint is the sum of the numbers its
pointers have; the argument that it falls is that no chain ever grows from one
pass to the next, which is kept through the middle of a pass as well. Path names
enter the gateway order through a rank function, which stands for
`localeCompare`.

**Projection.** The protocol is a state machine whose steps are the writers'
transactions, the projector's statements, failures and crashes, for any number of
runs. A page is two steps, the snapshot its statement reads and the rows it
commits, so a writer may commit in between. A writer's change and its mark commit
together; a chunk write that does not defer its projection has written its rows
and marks without the content flag (packages/db/script-migrations/0024_knowledge_projection_async.ts:18-131);
a deleted chunk takes its rows and marks nothing; a new mark starts at generation
1 and goes with its document (packages/db/migrations/0378_knowledge_projection_dirty.sql:1-14).
Tin membership is constant, and a row is its compared columns. `ProjectionRun` is
the sequential run as its own code, with its loops, over a quiet database in which
some documents may be held by another run; each of its methods is proved to be a
stretch of protocol steps, so a whole run leads from the state it starts in to the
one it returns in. A deadline still ahead at return has cut nothing short. `ProjectionPass` is the projector's pass: rounds of runs, and
the fill called again and again from the cursor it returned
(apps/labbai/lib/knowledge/projection/run.ts:84-123), with anything happening to
the database between two calls that only takes unfilled rows away. The rounds are
given, as many as the budget lasts for, so the clock is in what each says and not
in a loop condition. A pass whose budget is spent before its first fill reports
nothing remaining although the fill never began; the code does the same.

A generation identifies a mark only while its document lives, so bringing back the
id of a document that a run is in a pass over can lose a write: the run may settle
a mark of the new document as though it were the one it read. Upload sessions
create documents under ids they were given earlier
(apps/labbai/lib/knowledge/application/upload-sessions.ts:334-342), so a document's
id need not be new. `ProjectionReuse.ReuseIsSafeExactlyOutsidePasses` proves
when it matters: from any state the protocol can be in, creating a document under
an id that is free is safe exactly when no run is in a pass over that id, whatever
the pass has done so far; a run that holds the lock and has not read the mark does
no harm. `NoReuse` excludes exactly those steps and is the protocol's only
restriction on writers. `ProjectionReuse.ReuseLosesAWrite` is a run of the system
from an empty database that loses a write by one such step.

**OAuth.** The state is the five tables; the steps are the statements that reach
them, each with its triggers, cascades and constraints
(packages/db/migrations/0323_oauth_provider.sql:55-112). `OAuthStore` has the
trigger functions as methods over mutable tables. Rotation
(apps/labbai/lib/auth/oauth-token-family.ts:385-490) is included because the
guarantees are about inserts and rotations together. Times are in milliseconds.

"No token outlives its family" holds of refresh tokens and is false of access
tokens: a rotation sets an access token's expiry an hour from its own time
(apps/labbai/lib/auth/oauth-token-family.ts:451) and nothing bounds it by the
family's. `OAuthRotation.TokenOutlivesItsFamily` is a login that ends one
millisecond into its life and whose rotation issues a token that outlives it;
`OAuthRotation.IssuedWithinFamily` says exactly when one does, and
`OAuthRotation.OverrunIsBounded` that it never overruns by an hour, however the
tables go on.

**Object spreads.** Expressions are literals, spreads, conditionals, logical
operators, member accesses and wrappers; everything else is an opaque node at its
own position. The evaluator is ECMA-262's for that fragment: definitions in order,
the last one winning, spreads copying own properties, `__proto__: v` setting the
prototype instead of a property and the shorthand `__proto__` defining one, and an
inherited member being anything at all. Which names numbers print as is a
parameter, so the results hold for JavaScript's.
Complete lookups are right exactly for names that are neither a number's nor
`__proto__`: `getStaticPropertyName` has no name for a numeric key and the lookup
then steps over it as though it were another name, and the lookup takes
`__proto__: v` for a property. Both halves are proved, for lookups and for member
accesses. What resolution returns when it is not complete is settled too: on any
expression whose spreads stand at different positions, as those of a source do, it
returns exactly the literals that can come of it and the definitions a name can hit,
which `SpreadExactness` says as relations, without lists or visited spreads.

**Guarded graphs.** Static and deferred imports are two arbitrary finite maps and
the forbidden prefix of a module a third. As in the source, the root itself is
never checked when it is imported again, only when it is deferred to.

**Block successors.** The comment in `main` says flattening guarantees a closed
map (scripts/generate-block-successors.ts:145-149). It does exactly when the
registered edges have no cycle of length two or more:
`BlockSuccessors.ClosedExactlyWithoutLongCycles`. Two blocks that replace each
other are enough to break it.

**Date bindings.** Scopes carry their names, and the set of Dates of each scope is
an array updated in place. What a declaration proves is said without the rules: its
type mentions `Date` through annotations and unions, or its value may be, through
wrappers, branches and operands, a new Date or a name whose nearest binder has it as
one. That every candidate is among its scope's names, which
the visitor ensures (scripts/check-sql-date-binding.ts:470-480), is what makes an
unproven name's blocking of outer lookups harmless.

**SQL splitting.** A statement is a sequence of characters, strings, dollar-quoted
texts and comments; the theorem covers blank statements, comments anywhere and
surrounding white space, and a source ends outside every quote and comment exactly
when it is such statements joined by semicolons. A source may also end inside a line
comment, and then splits as though a line break followed; and whatever else it ends
inside, it splits as it would with that closed at its end, but for what closes it. So
the theorems cover every source. A comment leaves nothing behind in a statement, not
even a space, so `a/**/b` reads as `ab`.

**SVG paths.** The grammar is written on its own, with numbers as datatypes and
maximal munch as a condition on what follows a number, and the check accepts a
string exactly when the grammar describes it. The error of a path that is refused is
said by the grammar as well: after which whole groups it breaks off, at which
character, and what should have stood there. It is section 8.3.9 of SVG 1.1 with
the code's looser separators: any white space and commas, anywhere between parts.

**Policies.** Documents are JSON values whose objects are maps, so key order is not
represented. Reconciliation runs against a store that pages as its SQL does, with
nobody else writing; ids are ordered as JavaScript orders strings. The database has
an order of its own, by its collation, and `PolicyPaging` says what that costs: a
page is refused as non-advancing for some table exactly when the two orders
disagree on some pair of ids. A group with the
empty id is never listed, because `id > ''` excludes it: it is the one missing
group the fill leaves out, and then the relational check fails. The default policy
of a group passes validation exactly when the group's id is canonical, its
workspace is not empty and the document is small enough.

## Model

| member | source | states |
|---|---|---|
| Walk.Run | scripts/check-tool-registry-boundary.ts:294-311 | the walk reaches exactly the modules some import path reaches, and records for each an importer on a shortest path |
| Walk.ExplainChain | scripts/check-tool-registry-boundary.ts:313-322 | the explained chain is an import path from the entry and no import path is shorter; an unreached module is its own chain |
| DepthFirst.Postorder | scripts/check-tool-registry-boundary.ts:386-406 | the explicit-stack search finishes every reachable module once, each before the module it was first seen from |
| DominatorTree.ChainIsDominators | scripts/check-tool-registry-boundary.ts:421-449 | pointers that meet every importer and keep every dominator have as chains exactly the dominators |
| DominatorFixpoint.Intersect | scripts/check-tool-registry-boundary.ts:422-432 | the two walks always meet, at the node whose chain is the intersection of the two chains |
| DominatorFixpoint.Candidate | scripts/check-tool-registry-boundary.ts:439-443 | the candidate's chain is what the chains of all importers with a dominator have in common |
| DominatorPass.UpdateKeepsPass | scripts/check-tool-registry-boundary.ts:444-447 | one in-place update keeps every true dominator on every chain, lets no chain grow, and leaves later modules alone |
| DominatorPass.PassSettles | scripts/check-tool-registry-boundary.ts:435-449 | after a pass, whatever lies on the chain of every importer of a module lies on the module's own chain |
| DominatorFixpoint.PassLowersCost | scripts/check-tool-registry-boundary.ts:434-449 | a pass that changes anything lowers the sum of the pointers' numbers, so the fixpoint ends |
| DominatorFixpoint.Fixpoint | scripts/check-tool-registry-boundary.ts:421-449 | the fixpoint terminates, numbers everything, and its pointers meet every importer and keep every dominator |
| DominatorWeight.FoldSizes | scripts/check-tool-registry-boundary.ts:451-460 | one backward sweep gives each module the size of its whole subtree |
| Dominators.Compute | scripts/check-tool-registry-boundary.ts:377-463 | `idom` is the immediate dominator of every reachable module, for every finite graph, and `weight` the number of modules all of whose paths go through it |
| Gateways.GatedIsExclusiveCost | scripts/check-tool-registry-boundary.ts:366-373 | a module's weight is exactly how many modules the entry can no longer reach once it is deleted; the entry's is the whole graph |
| Gateways.DominatorChain | scripts/check-tool-registry-boundary.ts:487-498 | the chain lists, in the order they are met, exactly the modules every path to the target crosses, or the last ten thousand of them |
| Gateways.GatewayAbove | scripts/check-tool-registry-boundary.ts:465-479 | every module heavy enough to report is reported through a gateway that gates nothing more than it and the links between them |
| Gateways.GatewayIsUnique | scripts/check-tool-registry-boundary.ts:465-479 | a pass-through chain is reported once |
| Gateways.GatewaysFor | scripts/check-tool-registry-boundary.ts:465-484 | the rows are modules that gate at least 30, each once with how many it gates, whose immediate dominator is the entry or gates more than it and them, heaviest first; every other such module comes after a full report |
| Gateways.GatewayIsWorthReporting | scripts/check-tool-registry-boundary.ts:473-481 | the test on the dominator tree picks exactly the modules worth reporting |
| ProjectionProtocol.StepKeepsInv | packages/db/knowledge-projection.ts:280-425 | every step of writers, runs, failures and crashes keeps the protocol's invariant, but for creating a document under an id a run is in a pass over |
| ProjectionProtocol.NoWriteIsLost | packages/db/knowledge-projection.ts:288-336 | in every interleaving, whenever a document carries no mark its rows agree with its chunks, source and ACL |
| ProjectionProtocol.OneRunPerDocument | packages/db/knowledge-projection.ts:400-424 | no two runs ever work on one document at once |
| ProjectionProtocol.CleanReturnSawNoMarks | packages/db/knowledge-projection.ts:448-452 | a run that returns with nothing remaining saw the mark table empty at its last claim |
| ProjectionProtocol.SettlesExactlyWhenUntouched | packages/db/knowledge-projection.ts:308-336 | in every interleaving a pass takes its mark away exactly when nobody wrote or deleted its document since it read the mark, and then every row is current; otherwise a document that exists keeps its mark |
| ProjectionReuse.ReuseIsSafeExactlyOutsidePasses | packages/db/knowledge-projection.ts:308-331 | from any state, after a document is created under a free id no write can be lost if and only if no run is in a pass over that id |
| ProjectionReuse.ReuseLosesAWrite | packages/db/knowledge-projection.ts:308-331 | a run from an empty database that reuses an id under a pass and ends with an unmarked document whose rows are stale |
| ProjectionRun.Database.ClaimMarks | packages/db/knowledge-projection.ts:280-286 | the claim is the oldest marks not passed over, at most a batch, and short only when no other is left |
| ProjectionRun.Database.RewritePage | packages/db/knowledge-projection.ts:130-210 | one page makes the rows of the next chunks current, touches nothing else, counts what changed, and is two steps of the protocol |
| ProjectionRun.Database.ProjectDocumentRows | packages/db/knowledge-projection.ts:350-384 | the paging terminates with the projection current unless the deadline is past at return, and does nothing once it is past; it reads every full page and a short one, counts exactly the rows that changed, and changes no other projection |
| ProjectionRun.Database.ProjectMarkedDocument | packages/db/knowledge-projection.ts:392-425 | a document is settled with all its pages read and every row current, left marked only if held elsewhere or past the deadline, or gone, and the rows written are those that changed |
| ProjectionRun.Database.RunKnowledgeProjection | packages/db/knowledge-projection.ts:436-468 | a quiet run whose deadline is not past at return has settled every mark but those held elsewhere, with every unmarked document current and the pages and rows of each counted; past it from the start, a run does nothing; every run is a stretch of protocol steps |
| ProjectionFill.ChooseDocuments | packages/db/knowledge-projection.ts:505-526 | documents are chosen in order of their first row up to the room, and the scan stops before the first row left out |
| ProjectionFill.MarkTable.MarkUnfilledProjectionDocuments | packages/db/knowledge-projection.ts:494-533 | marks never pass the ceiling; a call with room takes the rows past the cursor up to the end, to the end of its scan, or to the first row of one document too many, chooses just the existing documents of those rows, and comes back empty only when no unfilled row is left |
| ProjectionPass.LeavingShortens | packages/db/knowledge-projection.ts:494-533 | whatever rows leave the indexes between two calls, no more are left past the cursor |
| ProjectionPass.RunKnowledgeProjectionPass | apps/labbai/lib/knowledge/projection/run.ts:84-123 | calls linked by their cursors, rows and documents leaving in between: which rounds run, when the fill is called and why the pass ends; it remains exactly when its last round did or the fill stopped partway; the fill has room at most once per unfilled row and once more, ends if every round leaves it room and time, and once over every row still unfilled belongs to a document some call chose or that is gone |
| OAuthLifecycle.StepKeepsInv | packages/db/oauth-provider-lifecycle.ts:10-128 | every statement, with its triggers and cascades, keeps the tables consistent and every live token within its consent |
| OAuthLifecycle.AccessWithinConsent | packages/db/oauth-provider-lifecycle.ts:54-128 | after every statement of every run each access token of a client that needs consent is within its grantee's consent |
| OAuthLifecycle.CurrentRefreshWithinConsent | packages/db/oauth-provider-lifecycle.ts:54-128 | and each family's current refresh token is within the very consent the family is linked to |
| OAuthLifecycle.RefreshWithinFamily | packages/db/oauth-provider-lifecycle.ts:30-45 | no refresh token is newer than its family or outlives it, and no family passes generation 1000 |
| OAuthLifecycle.SupersededStaysSuperseded | packages/db/oauth-provider-lifecycle.ts:30-45 | over every run a superseded refresh token never becomes current again |
| OAuthLifecycle.UserLeavesNothing | packages/db/migrations/0323_oauth_provider.sql:98-112 | in consistent tables deleting a user takes exactly their consents, families and refresh tokens and the access tokens that are theirs or came from those, and leaves every other row as it was |
| OAuthLifecycle.SessionIsForgotten | packages/db/migrations/0323_oauth_provider.sql:98-112 | deleting a session takes no row, and from each only that session |
| OAuthStore.Store.PrepareFamily | packages/db/oauth-provider-lifecycle.ts:10-49 | the trigger founds a family of the token's owner and expiry, linked to the grantee's consent, or accepts a token only if it matches its family; the row keeps all the token was given |
| OAuthStore.Store.RequireActiveConsent | packages/db/oauth-provider-lifecycle.ts:54-79 | the trigger passes exactly when the client skips consent or the grantee's consent covers the scopes |
| OAuthStore.Store.NarrowTokens | packages/db/oauth-provider-lifecycle.ts:88-111 | a family goes exactly when it is linked to the consent and its current token holds a scope the consent lost, its tokens go with it, and besides them exactly the grantee's access tokens holding such a scope |
| OAuthStore.Store.DeleteUnlinkedAccessTokens | packages/db/oauth-provider-lifecycle.ts:116-124 | the grantee has no access token left and every other access token is unchanged |
| OAuthStore.Store.InsertRefreshToken | packages/db/oauth-provider-lifecycle.ts:10-87 | an insert succeeds exactly when both triggers and every constraint allow it, and otherwise changes nothing |
| OAuthStore.Store.UpdateConsentScopes | packages/db/oauth-provider-lifecycle.ts:88-115 | updating a consent's scopes leaves, of what was issued under it, exactly what the new scopes cover |
| OAuthStore.Store.DropConsent | packages/db/oauth-provider-lifecycle.ts:116-128 | deleting a consent takes exactly the families linked to it, the tokens descended from them and its grantee's access tokens |
| OAuthStore.Store.Rotate | apps/labbai/lib/auth/oauth-token-family.ts:346-490 | one presentation of a refresh token is refused, ends its family, or rotates, exactly as the checks say |
| OAuthRotation.RotatesWhenChecked | apps/labbai/lib/auth/oauth-token-family.ts:346-481 | what every presentation comes to: refused without client, consent or family; the family ended unless the token is its current one, its owner's, unused, in time, registered for and consented to; refused if it asks for more than it may; otherwise rotated exactly when the two new ids are unused |
| OAuthRotation.RotationIsFourStatements | apps/labbai/lib/auth/oauth-token-family.ts:432-481 | a rotation is four statements of the state machine, so every run's guarantees cover it |
| OAuthRotation.RotationKeepsInv | apps/labbai/lib/auth/oauth-token-family.ts:385-481 | whatever a presentation leads to, every live token stays within its consent |
| OAuthRotation.RotationMovesOn | apps/labbai/lib/auth/oauth-token-family.ts:432-481 | rotation supersedes the presented token with one of the same owner, scopes and family, issues an access token of that owner for the scopes requested, or for all it holds, good for an hour, and touches no other row |
| OAuthRotation.IssuedWithinFamily | apps/labbai/lib/auth/oauth-token-family.ts:451-481 | the access token a rotation issues ends within its family exactly when the family had an hour left, and otherwise overruns it by less than an hour |
| OAuthRotation.OverrunIsBounded | apps/labbai/lib/auth/oauth-token-family.ts:451-481 | over every run, while its row exists, such a token keeps its expiry and its family's, and the overrun stays below an hour |
| OAuthRotation.TokenOutlivesItsFamily | apps/labbai/lib/auth/oauth-token-family.ts:451 | a reachable state in which a rotation issues an access token that outlives its family |
| OAuthRotation.ReplayEndsTheLogin | apps/labbai/lib/auth/oauth-token-family.ts:251-258 | presenting a used or superseded token deletes its family with every token descended from it, and nothing else |
| OAuthRotation.RedeemedAtMostOnce | apps/labbai/lib/auth/oauth-token-family.ts:251-258 | over every run a superseded token is never redeemed again, and presenting it ends its login |
| SpreadResolver.ResolveRequestObjects | scripts/check-tool-request-boundary.ts:1390-1470 | the resolver's branches and loops compute the resolution function |
| SpreadResolver.GetResolvedObjectProperties | scripts/check-tool-request-boundary.ts:1542-1598 | the backward scan with its early returns computes the lookup function |
| SpreadSoundness.ResolveSound | scripts/check-tool-request-boundary.ts:1390-1470 | when resolution is complete the expression evaluates to one of the literals returned |
| SpreadSoundness.LookupSound | scripts/check-tool-request-boundary.ts:1542-1598 | when a lookup is complete the property the literal ends up with is one of the definitions returned, and absence is possible only if listed |
| SpreadSoundness.RightExactlyForTracked | scripts/check-tool-request-boundary.ts:127-134 | whichever names numbers print as, complete lookups of a name are right on every literal exactly when the name is neither one of those nor `__proto__` |
| SpreadSoundness.MemberRightExactlyForTracked | scripts/check-tool-request-boundary.ts:1409-1439 | complete resolutions of a member access are right for exactly the same names |
| SpreadCompleteness.KnownResolves | scripts/check-tool-request-boundary.ts:1441-1469 | choices between literals always resolve completely, to literals that are part of them |
| SpreadCompleteness.KnownLookupComplete | scripts/check-tool-request-boundary.ts:1569-1575 | lookups in literals with static keys and known spreads are always complete: the revisit guard never stops them |
| SpreadExactness.ResolveExact | scripts/check-tool-request-boundary.ts:1390-1470 | complete or not, resolution returns exactly the literals that can come of an expression, and is complete exactly when nothing else can |
| SpreadExactness.LookupExact | scripts/check-tool-request-boundary.ts:1542-1598 | complete or not, a lookup returns exactly the definitions a name can hit, absence among them, and is complete exactly when no computed key or spread hides one |
| SpreadExactness.LaterEntriesKeepIt | scripts/check-tool-request-boundary.ts:1557-1581 | a definition followed only by other names, computed keys and unreadable spreads is what a lookup returns, and surely exactly when none of the latter two follow |
| GuardedGraph.FindViolations | scripts/check-application-graph.ts:223-284 | every report is a real chain, one a prefix, as short as any chain into it, none is missing, and nothing is reported exactly when nothing forbidden is loaded or deferred to |
| GuardedGraph.SilentExactlyWhenClean | scripts/check-application-graph.ts:218-222 | over the whole import graph, silence means no forbidden module is loaded from the root and none is deferred to by what is |
| BlockSuccessors.FlattenSuccessors | scripts/generate-block-successors.ts:60-82 | flattening terminates on every map and maps each retired id to the terminal of its walk, a registered block, if that is another id |
| BlockSuccessors.TerminalIsUnique | scripts/generate-block-successors.ts:64-74 | a walk has one terminal |
| BlockSuccessors.CheckFlattened | scripts/generate-block-successors.ts:150-156 | the generator's check passes exactly when no successor is a key |
| BlockSuccessors.ClosedExactlyWithoutLongCycles | scripts/generate-block-successors.ts:145-156 | the flattened map is closed exactly when the registered edges have no cycle of length two or more |
| BlockSuccessors.MutualSuccessorsAreNotClosed | scripts/generate-block-successors.ts:145-156 | two blocks that replace each other map to one another, so the flattened map is not closed |
| BlockSuccessors.OneLookupIsEnough | scripts/generate-block-successors.ts:145-149 | a closed map answers in one lookup what following the edges to the end would |
| DateBinding.HasDateName | scripts/check-sql-date-binding.ts:143-149 | the loop up the scopes computes the scoped lookup |
| DateBinding.NamesGrow | scripts/check-sql-date-binding.ts:136-149 | more known Dates never make a name less of a Date, although unproven names block outer ones |
| DateBinding.ResolveDates | scripts/check-sql-date-binding.ts:516-530 | the loop terminates with the least set of Dates that is closed under the declaration rules: those bound at the start and those declarations prove |
| DateBinding.EveryDateIsProven | scripts/check-sql-date-binding.ts:516-530 | every Date was bound as one or is proved by a declaration from the final set |
| DateBinding.RulesAreProofs | scripts/check-sql-date-binding.ts:86-116 | a declaration is taken for a Date exactly when its type mentions Date or its value may be a new Date or a Date by its nearest binder |
| DateBinding.LeastAreTheDates | scripts/check-sql-date-binding.ts:516-530 | the final Dates are exactly those bound at the start and those some declaration proves from them, and no fewer hold what is proved |
| DateBinding.LeastFollowsScoping | scripts/check-sql-date-binding.ts:118-149 | in the final set a name is a Date exactly when the nearest scope that binds it says so |
| DateBinding.OrderDoesNotMatter | scripts/check-sql-date-binding.ts:516-517 | declarations in any order give the same Dates |
| SqlScanner.ParseStatements | scripts/check-migrations-safety.ts:63-156 | the character loop with its flags computes the scanner |
| SqlRoundTrip.SplittingUndoesJoining | scripts/check-migrations-safety.ts:63-156 | statements with closed quotes, joined by semicolons, parse back to their trimmed texts and starting lines, blank ones dropped |
| SqlReading.ClosedExactlyWhenJoined | scripts/check-migrations-safety.ts:63-156 | a source ends outside every quote and comment exactly when it is closed statements joined by semicolons, so the round trip covers every such source |
| SqlLastLine.ReadableExactlyWhenJoined | scripts/check-migrations-safety.ts:63-156 | a source ends outside quotes and block comments, at most inside a line comment, exactly when a line break after it makes it closed statements joined, and it then splits into exactly those |
| SqlClosing.SplitsAsClosed | scripts/check-migrations-safety.ts:63-156 | whatever a source ends inside, closing it makes it closed statements joined, and it splits into those but for what closes the last |
| SqlRoundTrip.SplitExactly | scripts/check-migrations-safety.ts:63-156 | comment-free trimmed statements come back one for one exactly as written, each with its 1-based line |
| SqlRoundTrip.CommentsChangeOnlyLines | scripts/check-migrations-safety.ts:59-62 | adding, removing or rewriting comments changes no statement's text |
| IconPaths.ReadNumber | scripts/check-icon-paths.ts:57-84 | the number loop computes the scanner |
| IconPaths.ValidatePath | scripts/check-icon-paths.ts:96-169 | the outer loop, which advances at every turn, reports the first error the specification does |
| PathGrammar.NumberScanned | scripts/check-icon-paths.ts:52-84 | a number written out and not run on by what follows is scanned to its end |
| PathGrammar.ScannedIsNumber | scripts/check-icon-paths.ts:52-84 | what is scanned as a number is one, and is not run on by what follows |
| PathAcceptance.AcceptsExactlyPaths | scripts/check-icon-paths.ts:92-169 | a string is accepted exactly when it is moveto-first path data with whole operand groups and 0/1 arc flags |
| PathAcceptance.CanonicalIsAccepted | scripts/check-icon-paths.ts:92-169 | every command sequence printed with single spaces is accepted |
| PathErrors.ReportsExactlyFaults | scripts/check-icon-paths.ts:92-169 | an error is reported exactly when the path has it by the grammar: what is missing after how many whole groups, and where |
| PolicyDocuments.SplitStatements | packages/db/credential-group-resource-policies.ts:205-211 | the loop sets knowledge statements apart in order and refuses anything that is not an object |
| PolicyDocuments.ParseWorkflowStatement | packages/db/credential-group-resource-policies.ts:265-331 | the workflow check, with its two loops, returns ids exactly for the canonical statement of 1 to 50 canonical ids in strict order |
| PolicyDocuments.ParseCredentialGroupPolicyDocument | packages/db/credential-group-resource-policies.ts:174-356 | the parser accepts exactly the policies of the expected group, and returns their own statements first and their knowledge statements after them |
| PolicyDocuments.AcceptsExactlyPolicies | packages/db/credential-group-resource-policies.ts:174-356 | a document is accepted exactly when its own statements are the canonical ones, and then only knowledge statements move |
| PolicyDocuments.CanonicalKeepsStatements | packages/db/credential-group-resource-policies.ts:199-211 | canonicalising keeps every statement, own ones first, knowledge statements unchanged and in order |
| PolicyDocuments.CanonicalIsIdempotent | packages/db/credential-group-resource-policies.ts:174-356 | canonicalising twice is canonicalising once |
| PolicyDocuments.DefaultIsCanonical | packages/db/credential-group-resource-policies.ts:152-163 | the default document is accepted unchanged |
| OrganizationPolicies.ValidateOrganizationAccountPolicyDocument | packages/db/credential-group-resource-policies.ts:359-443 | exactly the documents of valid grants are accepted: one a credential type, no workspace both all and selected, at most 1000 |
| PolicyStore.Store.ListMissingPolicies | packages/db/credential-group-resource-policies.ts:611-629 | a page is the next workspace groups without a policy, in order, up to the limit, and short only at the end |
| PolicyStore.Store.InsertDefaultPolicies | packages/db/credential-group-resource-policies.ts:631-682 | exactly the listed workspace groups without a policy get the default one, and nothing else changes |
| PolicyStore.Store.FindRelationalInvariantViolation | packages/db/credential-group-resource-policies.ts:684-714 | nothing is found exactly when every group has a policy, every policy a group, and owners agree; what is found is real and first |
| PolicyStore.Store.ListPolicies | packages/db/credential-group-resource-policies.ts:716-738 | a page is the next policies in order with oversized documents withheld |
| PolicyReconciliation.AssertPage | packages/db/credential-group-resource-policies.ts:445-456 | a page is refused exactly when it is oversized or does not advance, and otherwise the cursor moves strictly on |
| PolicyReconciliation.FillMissing | packages/db/credential-group-resource-policies.ts:480-488 | the first loop terminates having inserted a policy for every workspace group that lacked one |
| PolicyReconciliation.ValidateAll | packages/db/credential-group-resource-policies.ts:497-527 | the second loop terminates and succeeds exactly when every stored policy is sound, having read each once; otherwise it reports the first that is not, in id order, and why |
| PolicyReconciliation.Reconcile | packages/db/credential-group-resource-policies.ts:458-529 | reconciliation succeeds exactly when after the fill the relations hold and every policy is sound; then every group has one policy, with its owner, and the counts are of what was done |
| PolicyPaging.StretchIsPage | packages/db/credential-group-resource-policies.ts:611-629 | whatever order the database has, the page past the ids read so far is the next stretch of the ids in that order |
| PolicyPaging.ReadPages | packages/db/credential-group-resource-policies.ts:445-456 | over ids in the database's order, paging reads them all or stops at the first page that does not end past the last one in JavaScript's order |
| PolicyPaging.NeverRefusedExactlyWhenOrdersAgree | packages/db/credential-group-resource-policies.ts:445-456 | no page of any table is refused as non-advancing exactly when the database orders every two ids as JavaScript does |
| PolicyReconciliation.DefaultPolicyIsSound | packages/db/credential-group-resource-policies.ts:631-682 | an inserted policy passes validation exactly when its group's id and owner are usable and it is small |

## Left out

- Regex import extraction, specifier resolution, file reading, git and console output: the import relation, the syntax trees and the source strings are given.
- Ratchet comparison, baselines and reports of `scripts/check-tool-registry-boundary.ts`: easy arithmetic over the results proved here.
- ProjectionProtocol.NoWriteIsLost: holds while no document id comes back under a pass over it; `ProjectionReuse.ReuseIsSafeExactlyOutsidePasses` proves that no weaker condition does. Chunks moving between documents are not modelled.
- ProjectionRun.Database.RunKnowledgeProjection: one run over a database nobody else writes; interleavings are the protocol's. Lock and statement timeouts appear only in the protocol, as failing steps. The pages of documents the deadline cuts short are counted but not said to be how many.
- ProjectionRun.Database.SettleMark: called, as in the source, only by a pass that has rewritten every projection; what settling means among other writers is `ProjectionProtocol.SettlesExactlyWhenUntouched`.
- ProjectionPass.RunKnowledgeProjectionPass: a round is what it reports and leaves behind; its workers, their sessions and the totals of pages and written rows are not modelled. No document with unfilled rows is created between two calls.
- ProjectionRun.Database.ProjectMarkedDocument: requires a page size of at least one, the only kind of page that can end.
- The binary vector columns, which are written and not compared, and the SQL functions behind vectors and Tin.
- Deleting an OAuth client, changing a client's `skip_consent`, and the resource servers' check that an access token has not expired.
- The checks of rotation before its family is locked: client authentication, account blocking, organization membership. The organization's policy is one flag of the request.
- Locks of the OAuth statements: each statement, and each rotation, is one atomic step.
- SpreadSoundness.ResolveSound: for expressions whose static member accesses are to names that are neither a number's nor `__proto__`; `SpreadSoundness.MemberRightExactlyForTracked` proves that nothing less would do. Identifiers, calls and function locals are left out, and so is a getter that changes the object it is read from; a getter and setter of one name count as the last of the two.
- The order of the flattened successor map, which only its rendering uses.
- GuardedGraph.FindViolations: the reason text of a report is its prefix and whether it was deferred.
- The visitor that builds scopes and candidates, and the reports of `scripts/check-sql-date-binding.ts`.
- Error texts of the policy parser are shortened, and the index of a faulty principal is not in them. Strings are compared by character, where JavaScript compares UTF-16 units.
- The lifecycle trigger on credential groups: reconciliation runs with nobody else writing, so it never fires.
- PolicyReconciliation.Reconcile: expects the unique index on a policy's resource; a policy with an empty id is never listed and so never validated.
