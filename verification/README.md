# Issuerd admin API: a verified model

A Dafny model of the parts of the Issuerd admin API where the logic is hard, and of the core, cluster and storage code
they lean on. What is proved is stated over every input, every table or every run.

- **Composite roles** (`Roles`, `Digraph`, `Expansion`, `Composites`, `CompositeGraph`, `RoleStore`). Composites are
  stored as names, and names are read back in two places. The worklist expansion is the reachability closure; each write
  changes every closure by an exact amount; the cycle check has an exact meaning; and no sequence of composite adds and
  removes by a caller without `manage-realm` brings an admin role they may not grant into any closure.
- **Client roles** (`Names`, `ClientRoles`, `RoleWrites`, `RoleDeletes`, `RowRewrites`, `RoleRenames`, `RoleRuns`,
  `UncoveringRuns`). When create, rename and delete keep role names unique, what every closure is after a delete or a
  rename in terms of the table before, and exactly which steps of a run bring an admin role into the closure of a role
  that stores a name they touch.
- **The admin gate** (`Utf8`, `PathRealm`, `AdminGate`, `Interleaving`, `AdminMoments`, `AdminRuns`). The path's realm segment,
  byte by byte, the authorization middleware as a machine of separate reads, and exactly which histories of writes let a
  request pass.
- **Credentials** (`Sorting`, `Credentials`, `CredentialStore`, `CredentialOrders`). Moving and deleting credentials in a
  priority-ordered list that is renumbered in place.
- **Mail and dotenv** (`Templates`, `Email`, `EmailMeaning`, `Dotenv`). Sequential replacement as simultaneous
  substitution, what every string of a mail says and how it is escaped, and a file that reads back as written.
- **Attack detection** (`CacheKeys`, `Counters`, `Glob`, `BruteForce`, `AttackDetection`). The glob matcher, flat cache
  keys, decimal counters, what the lockout list says, and what clearing one user touches.
- **Client scopes** (`ClientScopes`). The assignment table and the two scope lists of a client, kept in step.
- **Clients and their cache** (`ClientCache`, `ClientRuns`). Reads through the claims cache against reads of storage, and
  which clients the admin API comes to trust.
- **Realm updates** (`RealmMerge`, `RealmMeaning`, `RealmUpdates`). Merge and replace field by field, their composition,
  and read-then-write-back.

Code that updates state is modelled by classes and loops, each proved equal to a specification function; code that only
computes is modelled by functions. What the results promise is stated in the fields and literals of the rows, tokens and
keys, not through the code's own helpers. Storage is the in-memory backend: rows in a sequence or a map. Clocks, generated ids,
requests, validated tokens, message bundles and the JSON form of the password policy are parameters.

Where the code does not do what its comments say, the model follows the code:

- The comment on composite name resolution says it mirrors the expansion. It does not for a client-role name that
  several clients use (`ResolutionsAgree`). So the cycle check can refuse harmless adds (`AmbiguousNameRefusesAdds`), and
  a name can stand for another role than the one it was taken from (`NameCollisionMakesCycle`).
- The composite flag is kept by a remove that leaves only dangling names (`RemovedRowShape`).
- The guard on role writes is documented as refusing every write that newly brings an admin role the caller may not
  grant into a closure. It reads names in the table before the write. A renamed role that stores its old name comes to
  contain the realm role of that name (`RewriteShieldsIff`). Deletes of client roles and of clients have no guard, and
  stored names stop being ambiguous or shadowed (`DeleteShieldsIff`, `DeleteClientShieldsIff`). From every table two or
  three accepted writes do it (`RenameReachesAdminRole`, `DeleteReachesAdminRole`).
- The client-role rename checks the requested name and stores the trimmed one (`UpdateUniqueIff`).
- The client and the user of a token without a session are read at different moments (`SessionlessHistoryIff`).
- The access attribute of a client is guarded by `manage-realm`. The name `admin-cli` and the enabled flag, which count
  as much, are not (`NextAdminIff`).
- Clearing a user is documented as touching that user's keys only. It also touches names that continue it after a colon
  (`ClearTouchesIff`).
- Merging is documented as keeping omitted fields. A stored lifespan of 2^63 seconds or more makes it fail
  (`EmptyMergeIff`).
- A client create does not touch the cache, which matters when the body brings an id that is in use or was looked up
  before (`CreateValidIff`). The SQL backends refuse an id in use; the in-memory one overwrites the row.
- Cache keys join a realm id and a name by a colon, and both may hold colons. A read can leave an entry that another
  realm takes for its own (`RunValidIff`, `NestedRealmsMix`).
- A realm called `count` has no realm-bound path of its own (`CanonicalPathBinds`).

## Model

| member | source | states |
|---|---|---|
| `Roles.ChildNameIff` | crates/issuerd-admin-api/src/composites.rs:76-92 | which role a stored name stands for at the endpoints: the client's own role, else the realm role; for a realm role the realm role, else the first listed client role |
| `Roles.ExpansionNameIff` | crates/issuerd-core/src/roles.rs:26-69 | which role it stands for in the expansion: the same, but a client-role name under a realm role needs one bearer only |
| `Roles.ResolutionsAgree` | crates/issuerd-admin-api/src/composites.rs:76-92 | the two readings of a name agree if and only if it is not a client-role name that several clients use, read from a realm role; when they differ the endpoint shows a role and the expansion grants none |
| `Roles.SoleWhenUnique` | crates/issuerd-core/src/roles.rs:36-60 | the expansion's any-client lookup succeeds if and only if exactly one row matches |
| `Roles.ClientParentResolution` | crates/issuerd-admin-api/src/composites.rs:76-92 | read from a client role, a name gives the same role for every order of the rows, and never a role of another client |
| `Expansion.ExpandComposites` | crates/issuerd-core/src/roles.rs:26-69 | the worklist ends with rows of distinct ids, each one a seed or a child of an earlier one, covering every seed and every child |
| `Expansion.ExpansionIsClosure` | crates/issuerd-core/src/roles.rs:21-69 | a role is in the expansion if and only if some seed reaches it in the graph of composites |
| `Composites.ResolveRefsInTurn` | crates/issuerd-admin-api/src/composites.rs:110-152 | a body resolves to the role of each reference in turn, or to the error of the first that has none |
| `Composites.RefStandsFor` | crates/issuerd-admin-api/src/composites.rs:110-152 | which role a reference stands for: the one of its id; else by name the named client's, or a realm role, or the first listed client role |
| `Composites.DirectChildrenListed` | crates/issuerd-admin-api/src/composites.rs:94-103 | the direct children are exactly the rows that a stored name stands for |
| `Composites.DistinctNames` | crates/issuerd-admin-api/src/composites.rs:194-201 | the stored names are the children's names, each once |
| `Composites.EdgesAfterReplace` | crates/issuerd-admin-api/src/composites.rs:202-215 | rewriting one row's composites changes that row's outgoing edges and no other |
| `CompositeGraph.AddEdges` | crates/issuerd-admin-api/src/composites.rs:164-216 | an add puts in exactly the edges its names stand for and loses none |
| `CompositeGraph.AddClosure` | crates/issuerd-admin-api/src/composites.rs:164-216 | after an add, i reaches j if and only if it did before, or i reached the parent and an added name stands for a role that reached j |
| `CompositeGraph.FaithfulAddClosure` | crates/issuerd-admin-api/src/composites.rs:164-216 | the same in terms of the added roles themselves, when their names stand for them |
| `CompositeGraph.RemoveEdges` | crates/issuerd-admin-api/src/composites.rs:218-246 | a remove takes out exactly the edges its names stand for and puts none in |
| `CompositeGraph.RemoveClosure` | crates/issuerd-admin-api/src/composites.rs:218-246 | after a remove, i reaches j if and only if it does without passing the parent, or it reaches the parent so and a kept name stands for a role that reaches j so; no closure grows and acyclicity is kept |
| `CompositeGraph.RejectsIff` | crates/issuerd-admin-api/src/composites.rs:176-193 | the check refuses if and only if the parent is on a cycle, an ambiguous stored name leads back to it, or an added role reaches it |
| `CompositeGraph.CheckIsExactIff` | crates/issuerd-admin-api/src/composites.rs:183-193 | with faithful names an add is refused if and only if it would put the parent on a cycle, or an ambiguous stored name, read as the endpoints do, leads back to the parent |
| `CompositeGraph.AmbiguousNameRefusesAdds` | crates/issuerd-admin-api/src/composites.rs:183-193 | a table in which every add to a role is refused and none would make a cycle |
| `CompositeGraph.AddAcyclicIff` | crates/issuerd-admin-api/src/composites.rs:183-201 | the table after an add is acyclic if and only if it was and no added name stands for a role that reaches the parent |
| `CompositeGraph.AcceptedAddKeepsAcyclic` | crates/issuerd-admin-api/src/composites.rs:183-201 | an accepted add with faithful names keeps the graph acyclic |
| `CompositeGraph.NameCollisionMakesCycle` | crates/issuerd-admin-api/src/composites.rs:183-201 | a table and an accepted add whose result has a cycle, because a name stands for another role |
| `CompositeGraph.AddedRowShape` | crates/issuerd-admin-api/src/composites.rs:194-204 | an add changes nothing of the row but its composites; names are distinct, and the composite flag says whether there are children if and only if there is no name or one that resolves |
| `CompositeGraph.RemovedRowShape` | crates/issuerd-admin-api/src/composites.rs:218-246 | a remove keeps the other fields and the names not removed in their order, and leaves a flag that says whether there are children if and only if no name is left or one that resolves |
| `CompositeGraph.RemoveCanLeaveFlag` | crates/issuerd-admin-api/src/composites.rs:218-246 | removing the only child of a role that also stores a dangling name leaves it marked as composite |
| `CompositeGraph.RemoveUndoesAdd` | crates/issuerd-admin-api/src/composites.rs:218-246 | removing what was added gives back the very table, when the stored names were distinct, resolvable and new |
| `RoleStore.CandidateClosure` | crates/issuerd-admin-api/src/roles.rs:80-105 | expanding the not yet stored row gives its closure in the table that would be stored |
| `RoleStore.DeniedIff` | crates/issuerd-admin-api/src/roles.rs:32-74 | the guard's test denies exactly: manage-realm, manage-users, manage-clients and impersonation that the caller does not hold, and the view role of an area that the caller neither views nor manages |
| `RoleStore.NewAdminRolesGrantable` | crates/issuerd-admin-api/src/roles.rs:32-105 | the guard passes if and only if the caller has manage-realm or the candidate's closure gains no admin role the caller may not grant |
| `RoleStore.AddForbiddenIff` | crates/issuerd-admin-api/src/composites.rs:202-215 | an add is forbidden if and only if the body resolves, the cycle check passes, manage-realm is not held and the parent comes to reach one of those roles |
| `RoleStore.UnionAdd` | crates/issuerd-admin-api/src/composites.rs:176-182 | the candidates are the direct children followed by the additions whose ids are new |
| `RoleStore.ClosureContains` | crates/issuerd-admin-api/src/composites.rs:183-193 | the computed check is reachability from a candidate to the parent |
| `RoleStore.CollectNames` | crates/issuerd-admin-api/src/composites.rs:194-201 | the collected names are the distinct names in order |
| `RoleStore.Store.ResolveCompositeRefs` | crates/issuerd-admin-api/src/composites.rs:110-152 | resolves the body reference by reference, ending at the first error |
| `RoleStore.Store.AddComposites` | crates/issuerd-admin-api/src/composites.rs:164-216 | bad references, a cycle and an ungrantable role are refused in that order and leave the table alone; otherwise the table is the one after the add |
| `RoleStore.Store.RemoveComposites` | crates/issuerd-admin-api/src/composites.rs:218-246 | the table is the one after the remove, or unchanged on a bad reference |
| `RoleStore.RunKeepsRoles` | crates/issuerd-admin-api/src/composites.rs:164-246 | no run of composite writes adds, drops or renames a role |
| `RoleStore.RunAcyclicIff` | crates/issuerd-admin-api/src/composites.rs:164-246 | a run stays acyclic at every step if and only if it starts so and no accepted add has a name that stands for a role reaching its parent |
| `RoleStore.RunKeepsAcyclic` | crates/issuerd-admin-api/src/composites.rs:164-246 | every run with faithful names keeps an acyclic graph acyclic |
| `RoleStore.RunContains` | crates/issuerd-admin-api/src/composites.rs:164-246 | no run by a caller without manage-realm brings an admin role the caller may not grant into the closure of any role |
| `RoleStore.RunKeepsAdminRolesOut` | crates/issuerd-admin-api/src/composites.rs:164-246 | the same in the names of the seven admin roles |
| `RoleStore.NameReferenceFaithful` | crates/issuerd-admin-api/src/composites.rs:105-152 | a name-only reference from a realm role is faithful if and only if the name is unambiguous |
| `RoleStore.OwnClientReferenceFaithful` | crates/issuerd-admin-api/src/composites.rs:105-152 | a reference to a role of the parent's own client is always faithful |
| `Names.ValidNameIff` | crates/issuerd-core/src/models.rs:1856-1887 | a name is accepted and stored as t if and only if it is t between Unicode white space, and t is not empty, neither begins nor ends in white space, encodes to at most 255 bytes and has no control character |
| `ClientRoles.CreateKeepsUnique` | crates/issuerd-admin-api/src/client_roles.rs:83-119 | an accepted create keeps ids and per-client names unique |
| `ClientRoles.UpdateUniqueIff` | crates/issuerd-admin-api/src/client_roles.rs:177-217 | an accepted update keeps names unique if and only if the requested name was trimmed or its trimmed form is free |
| `ClientRoles.PaddedRenameDuplicates` | crates/issuerd-admin-api/src/client_roles.rs:185-217 | a padded rename that is accepted and leaves two roles of one name |
| `ClientRoles.NamedRowIsFound` | crates/issuerd-storage/src/memory.rs:830-851 | with unique names, lookup by owner and name finds that very row |
| `ClientRoles.CreateStores` | crates/issuerd-admin-api/src/client_roles.rs:83-119 | an accepted create stores one row with what the body brings, under the body's id or a generated one |
| `ClientRoles.UpdateStores` | crates/issuerd-admin-api/src/client_roles.rs:201-217 | an accepted update rewrites the named row, keeps its id and omitted composites and attributes, and touches no other row |
| `ClientRoles.RunUniqueIff` | crates/issuerd-admin-api/src/client_roles.rs:83-277 | ids and names stay unique through a whole run if and only if they are at the start and no accepted update pads onto a taken name |
| `ClientRoles.Store.CreateClientRole` | crates/issuerd-admin-api/src/client_roles.rs:83-119 | conflict, invalid name and ungrantable composites in order, else the stored row |
| `ClientRoles.Store.UpdateClientRole` | crates/issuerd-admin-api/src/client_roles.rs:177-228 | not found, conflict, invalid and ungrantable in order, else the row replaced with its id kept |
| `ClientRoles.Store.DeleteClientRole` | crates/issuerd-admin-api/src/client_roles.rs:251-277 | not found, or the one row gone |
| `RoleWrites.NamesDecide` | crates/issuerd-core/src/roles.rs:45-65 | for any change of the table, closures gain no role the caller may not grant if and only if no stored name comes to stand for a role that brings one |
| `RoleWrites.CandidateReach` | crates/issuerd-admin-api/src/roles.rs:84-104 | expanding a candidate that need not be stored gives its closure in the graph with its own edges |
| `RoleWrites.RequireNewAdminRolesGrantable` | crates/issuerd-admin-api/src/roles.rs:80-104 | the guard on client-role writes, with or without a previous row, passes if and only if the candidate brings nothing guarded that the previous row had not |
| `RoleWrites.UpdateInPlaceShields` | crates/issuerd-admin-api/src/client_roles.rs:177-217 | an accepted update that keeps the name enlarges no guarded closure |
| `RoleWrites.CreateShields` | crates/issuerd-admin-api/src/client_roles.rs:83-109 | neither does an accepted create under a new id, although names stored elsewhere may come to stand for the new role |
| `RoleDeletes.DropAnewIff` | crates/issuerd-admin-api/src/client_roles.rs:251-277 | a delete makes a name stand for something new if and only if it uncovers the realm role behind the client's own, or leaves one bearer of a name that had two |
| `RoleDeletes.DeleteClosure` | crates/issuerd-admin-api/src/client_roles.rs:251-277 | after a delete, i reaches j if and only if it did without passing the deleted role, or it so reached a role that stores the freed name and the uncovered role so reached j |
| `RoleDeletes.DeleteShieldsIff` | crates/issuerd-admin-api/src/client_roles.rs:251-277 | a delete enlarges no guarded closure if and only if nothing it uncovers reached, past the deleted role, a guarded role new to the one that stores the name |
| `RoleDeletes.DropClientResolves` | crates/issuerd-storage/src/memory.rs:611-635 | what every name stands for after a client and its roles are deleted: the same, or the one other bearer of a name that the client's role bore |
| `RoleDeletes.DeleteClientShieldsIff` | crates/issuerd-storage/src/memory.rs:611-635 | deleting a client enlarges no guarded closure if and only if no name it leaves with one bearer brings a guarded role |
| `RoleDeletes.DeleteUncoversAdminRole` | crates/issuerd-admin-api/src/client_roles.rs:251-277 | in every table with a name of two bearers, deleting the one gives a realm role that stores it the admin role of the other |
| `RoleDeletes.DeleteClientUncoversAdminRole` | crates/issuerd-admin-api/src/clients.rs:421-446 | and so does deleting its client |
| `RowRewrites.NameAfter` | crates/issuerd-admin-api/src/client_roles.rs:177-217 | what every name stands for after a row is rewritten under another name or owner: the row where it takes the name, what it stood for unless the row shadows it or makes it ambiguous, or what the row frees |
| `RowRewrites.AroundEdges` | crates/issuerd-admin-api/src/client_roles.rs:177-217 | the edges between the other roles afterwards are those of the names kept and of the names freed |
| `RowRewrites.EdgeInto` | crates/issuerd-admin-api/src/client_roles.rs:177-217 | the edges into the row are those of the roles whose name it takes |
| `RowRewrites.EdgeOut` | crates/issuerd-admin-api/src/client_roles.rs:177-217 | the edges out of it are those of its own names, kept or freed |
| `RoleRenames.RewriteClosure` | crates/issuerd-admin-api/src/client_roles.rs:177-217 | after a rename or a create over a stored id, i reaches j if and only if it does past the row, over names kept and at most one freed, or comes so to a role whose name the row takes and one of the row's own names leads so to j |
| `RoleRenames.RewriteShieldsIff` | crates/issuerd-admin-api/src/roles.rs:76-105 | under the guard such a write enlarges a guarded closure if and only if the name it frees brings a guarded role to another role or to the row itself, or the row brings one to a role whose name it takes, all read in the table before |
| `RoleRuns.NextShieldsIff` | crates/issuerd-admin-api/src/client_roles.rs:83-277 | a composite write, a client-role write or a client deletion without manage-realm enlarges a guarded closure if and only if it is such a rename, such a create over a stored id, or a delete that uncovers |
| `RoleRuns.SoundRunIff` | crates/issuerd-admin-api/src/client_roles.rs:83-277 | ids and names stay unique through a mixed run if and only if they are at the start and no accepted update pads onto a taken name |
| `RoleRuns.RunShields` | crates/issuerd-admin-api/src/client_roles.rs:83-277 | along every run without manage-realm the steps that enlarge a guarded closure are exactly those, and a run without one enlarges none from start to end |
| `UncoveringRuns.RenameReachesAdminRole` | crates/issuerd-admin-api/src/client_roles.rs:83-228 | from every table with an admin role the caller may not grant: a role created under its name and renamed while storing that name is accepted and contains it |
| `UncoveringRuns.DeleteReachesAdminRole` | crates/issuerd-admin-api/src/client_roles.rs:83-277 | from every such table: a role created under its name, stored by a second role and then deleted leaves the second one containing it |
| `Utf8.ValidUtf8Iff` | crates/issuerd-admin-api/src/auth.rs:350-371 | the bytes that pass the UTF-8 check are exactly the encodings of texts |
| `PathRealm.HexIff` | crates/issuerd-admin-api/src/auth.rs:354-354 | a byte counts as a hexadecimal digit of value n if and only if it is the n-th of 0123456789abcdef or of 0123456789ABCDEF |
| `PathRealm.DecodeIff` | crates/issuerd-admin-api/src/auth.rs:346-371 | decoding turns every such escape into its byte and leaves everything else, stray percent signs included |
| `PathRealm.DecodeLength` | crates/issuerd-admin-api/src/auth.rs:350-371 | decoding shortens by two bytes per escape |
| `PathRealm.AsciiEscapesKeepUtf8` | crates/issuerd-admin-api/src/auth.rs:350-371 | escapes of ASCII bytes never make a valid segment invalid |
| `PathRealm.PercentDecode` | crates/issuerd-admin-api/src/auth.rs:350-371 | the loop decodes once, and fails if and only if the result is not UTF-8 |
| `PathRealm.PathRealmSegment` | crates/issuerd-admin-api/src/auth.rs:324-344 | the realm segment of a path: what follows the first realms segment, not empty and not the count endpoint, decoded once |
| `PathRealm.RealmOfIff` | crates/issuerd-admin-api/src/auth.rs:316-344 | a path names a realm if and only if the segment after its first realms segment, neither empty nor count, decodes to the name in UTF-8; a bad request if and only if that segment decodes to something else |
| `PathRealm.PathRoundTrip` | crates/issuerd-admin-api/src/auth.rs:316-371 | any spelling of a realm name, each byte plain or escaped with hexadecimal digits in either case, binds to exactly that name, except the plain spelling of count |
| `PathRealm.EncodeSegmentSpells` | crates/issuerd-core/src/urls.rs:109-133 | the canonical encoder keeps letters, digits and the harmless marks, escapes all other bytes in upper case and dot segments entirely, and so spells the name |
| `PathRealm.CanonicalPathBinds` | crates/issuerd-core/src/urls.rs:109-133 | a canonical admin path binds to its realm if and only if the realm is not called count |
| `PathRealm.StrictIff` | crates/issuerd-core/src/urls.rs:185-211 | the decoder of issuer URLs accepts exactly segments without stray percent signs, and reads them so |
| `PathRealm.StrictAgreesWithLenient` | crates/issuerd-core/src/urls.rs:185-211 | wherever the strict decoder of issuer URLs succeeds, the gate's decoder gives the same name |
| `AdminGate.SnapshotVerdict` | crates/issuerd-admin-api/src/auth.rs:27-308 | against unchanging stores the answer, with its status, is the one of the first check that fails, in the fields of the token and the rows; a token is cut off if and only if the realm's cutoff is positive and later than its issue time |
| `AdminGate.SnapshotExact` | crates/issuerd-admin-api/src/auth.rs:27-308 | against unchanging stores a request is accepted if and only if the token and the path are allowed |
| `AdminGate.SessionlessExact` | crates/issuerd-admin-api/src/auth.rs:277-308 | without a session the gate goes on if and only if the subject is the client's own linked service account, and fails with an internal error where that account is not linked |
| `AdminGate.BindExact` | crates/issuerd-admin-api/src/auth.rs:90-173 | the realm binding gives exactly the verdict of the path: malformed, master only, foreign realm, cut off or accepted |
| `AdminGate.TenantTokensStayHome` | crates/issuerd-admin-api/src/auth.rs:90-173 | an accepted token of another realm than master is for its own realm, a missing one, or read-only metadata |
| `Interleaving.InterleavingExact` | crates/issuerd-admin-api/src/auth.rs:27-61 | a process of separate reads can get from p to q under a history of writes if and only if reads at some moments of it, in order, lead there |
| `AdminMoments.AcceptanceExact` | crates/issuerd-admin-api/src/auth.rs:27-308 | a request can be accepted under a history of writes if and only if there are moments in order at which the token is not revoked, its realm exists and is not cut off, its client is an admin client, the session is there or the owner and then the linked user are, and the path's realm allows it |
| `AdminRuns.SessionlessNeedsOwnerThenUser` | crates/issuerd-admin-api/src/auth.rs:253-308 | in any run, a request whose session is never there is accepted only if its client has service accounts at one moment and its subject is that client's user at the same or a later one |
| `AdminRuns.SessionlessHistoryIff` | crates/issuerd-admin-api/src/auth.rs:253-308 | when everything else is in order throughout, that is also enough: some run over the history accepts the request if and only if so |
| `AdminRuns.SessionlessMixesSnapshots` | crates/issuerd-admin-api/src/auth.rs:277-308 | three states, one row changed at a time, none of which shows the token as sessionless, and a run over them that accepts it |
| `AdminRuns.ScenarioExists` | crates/issuerd-admin-api/src/auth.rs:253-308 | there are requests, clients and users for which those three states exist |
| `AdminRuns.NoLateAcceptance` | crates/issuerd-admin-api/src/auth.rs:27-308 | while a token stays revoked, cut off in its own or the path's realm, or without its session and one half of the sessionless shape, no request that starts then is accepted, whatever is written or interleaved |
| `AdminRuns.VerdictIsFinal` | crates/issuerd-admin-api/src/auth.rs:27-61 | a verdict never changes |
| `AdminRuns.FailsClosed` | crates/issuerd-admin-api/src/auth.rs:310-315 | a failing read rejects the request for good |
| `Sorting.SortIsStable` | crates/issuerd-admin-api/src/credentials.rs:51-59 | sorting keeps the order of equals |
| `Credentials.ListingMeans` | crates/issuerd-admin-api/src/credentials.rs:45-59 | credentials are listed by rising priority, and by date of creation where priorities are equal |
| `Credentials.PriorityMeans` | crates/issuerd-admin-api/src/credentials.rs:252-259 | the stored priority is the position from one, wrapped to a signed 32-bit number |
| `Credentials.RewriteAllSameSet` | crates/issuerd-admin-api/src/credentials.rs:252-259 | writing the renumbered rows one by one leaves exactly those rows |
| `CredentialStore.Store.MoveCredentialAfter` | crates/issuerd-admin-api/src/credentials.rs:224-271 | unknown id, unknown target and a move after itself fail in that order with no write; otherwise the rows are those after the move, with one write per changed priority |
| `CredentialStore.Store.Renumber` | crates/issuerd-admin-api/src/credentials.rs:252-259 | skipping unchanged priorities stores the same rows as writing all, with exactly that many writes |
| `CredentialStore.Store.DeleteCredential` | crates/issuerd-admin-api/src/credentials.rs:174-200 | unknown and last credential are refused, otherwise exactly that row goes |
| `CredentialStore.MoveConserves` | crates/issuerd-admin-api/src/credentials.rs:224-271 | a move keeps every row and changes at most its priority |
| `CredentialStore.MoveListing` | crates/issuerd-admin-api/src/credentials.rs:224-271 | the list read after a move is the moved list, numbered from one |
| `CredentialStore.MoveShape` | crates/issuerd-admin-api/src/credentials.rs:233-251 | the moved credential stands right after its target and the others keep their order |
| `CredentialStore.RepeatedMoveWritesNothing` | crates/issuerd-admin-api/src/credentials.rs:252-259 | repeating a move succeeds and writes nothing |
| `CredentialStore.DeleteKeepsOrder` | crates/issuerd-admin-api/src/credentials.rs:174-200 | deleting then listing is listing then deleting |
| `CredentialOrders.EveryOrderIsReachable` | crates/issuerd-admin-api/src/credentials.rs:224-271 | from any store, n - 1 moves list the credentials in any wanted order |
| `Templates.RenderIsSimultaneous` | crates/issuerd-admin-api/src/email.rs:63-69 | replacing placeholders one after the other is one simultaneous substitution, for values that cannot form a placeholder |
| `Templates.HarmlessIff` | crates/issuerd-admin-api/src/email.rs:63-69 | a value goes in as it is, in every template and whatever variable comes after it, if and only if no placeholder begins in it, be it completed by what follows |
| `Templates.SafeOneIff` | crates/issuerd-admin-api/src/email.rs:126-135 | between single braces that means: if and only if it has no opening brace |
| `Templates.RenderIgnoresOrder` | crates/issuerd-admin-api/src/email.rs:63-69 | the order of the variables does not matter |
| `Templates.RenderedHasNoPlaceholder` | crates/issuerd-admin-api/src/email.rs:63-69 | no listed placeholder survives |
| `Templates.RenderTemplate` | crates/issuerd-admin-api/src/email.rs:63-69 | the loop renders the template |
| `Templates.BracesInValuesBreakOrder` | crates/issuerd-admin-api/src/email.rs:63-69 | values with braces for which the order does matter |
| `Email.HtmlEscape` | crates/issuerd-admin-api/src/email.rs:43-56 | the loop escapes every character on its own |
| `Email.UnescapeInverts` | crates/issuerd-admin-api/src/email.rs:43-56 | escaping loses nothing |
| `Email.EscapeIsInert` | crates/issuerd-admin-api/src/email.rs:43-56 | escaped text has no angle bracket or quote, and has a brace exactly when the input does |
| `Email.EscapeKeepsSafe` | crates/issuerd-admin-api/src/email.rs:43-56 | escaping never makes a harmless value harmful |
| `Email.CopyIsBraceFree` | crates/issuerd-admin-api/src/email.rs:113-147 | resolved copy has no brace left for any bundle whose only braces are the known placeholders |
| `Email.BodiesAreSimultaneous` | crates/issuerd-admin-api/src/email.rs:173-210 | both bodies are one simultaneous substitution and keep no listed placeholder, for a realm, user and minutes harmless in the copy and a link harmless in the body |
| `EmailMeaning.BuiltInCopyIsTranslated` | crates/issuerd-admin-api/src/email.rs:76-90 | the built-in copy meets that condition |
| `EmailMeaning.CopyMeans` | crates/issuerd-admin-api/src/email.rs:108-146 | every string of the mail is the bundle's message, or the English one, with realm, user and minutes in place: escaped in the HTML copy, raw in the text copy |
| `EmailMeaning.HtmlCopyIsInert` | crates/issuerd-admin-api/src/email.rs:40-56 | with plain messages no string of the HTML copy has an angle bracket or quote, and unescaping it gives the string of the text copy |
| `EmailMeaning.MailMeans` | crates/issuerd-admin-api/src/email.rs:166-210 | the subject is the raw one, and every hole of either template holds its own string, realm and link escaped in the HTML body |
| `Dotenv.EscapedIsSinglePass` | crates/issuerd-admin-api/src/client_installation.rs:178-185 | the four chained replacements are one pass over the characters |
| `Dotenv.EscapedHasNoLineBreaks` | crates/issuerd-admin-api/src/client_installation.rs:178-185 | a quoted value stays on its line |
| `Dotenv.ReadLineInverts` | crates/issuerd-admin-api/src/client_installation.rs:178-185 | a dotenv reader gets every value back, and goes on with the rest |
| `Dotenv.DotenvRoundTrip` | crates/issuerd-admin-api/src/client_installation.rs:163-185 | the generated file reads back as the three settings, whatever characters they hold |
| `CacheKeys.FieldCovers` | crates/issuerd-admin-api/src/attack_detection.rs:14-17 | when a colon-terminated field is a prefix of a key whose fields may hold colons |
| `Counters.CountIff` | crates/issuerd-admin-api/src/attack_detection.rs:38-54 | a stored counter reads as n > 0 if and only if it is the decimal of n, up to 2^32 - 1, after any zeros and at most one plus sign; everything else reads as 0 |
| `Glob.GlobMatch` | crates/issuerd-cluster/src/cache.rs:81-119 | the backtracking matcher decides the recursive meaning of stars and escapes |
| `Glob.EscapedPrefix` | crates/issuerd-core/src/traits.rs:1028-1040 | an escaped literal matches itself and nothing else, before any further pattern |
| `Glob.PrefixScan` | crates/issuerd-admin-api/src/attack_detection.rs:62-73 | an escaped prefix with a star matches exactly the keys with that prefix |
| `Glob.EscapedIsBare` | crates/issuerd-core/src/traits.rs:1028-1040 | no star, question mark, bracket or backslash stays unescaped |
| `BruteForce.ParseKeyIff` | crates/issuerd-admin-api/src/attack_detection.rs:98-106 | a key is read as a user and an address if and only if it is the two after family and realm, the address without a colon |
| `BruteForce.KeyRoundTripIff` | crates/issuerd-admin-api/src/attack_detection.rs:14-17 | a key parses back to its user and address, colons in the user included, if and only if the address has no colon |
| `BruteForce.UserPrefixCovers` | crates/issuerd-admin-api/src/attack_detection.rs:62-73 | which keys a user's prefix covers, with colons in realm ids, names and addresses: realm and user count as one field |
| `BruteForce.SumIgnoresOrder` | crates/issuerd-admin-api/src/attack_detection.rs:156-163 | the failure total does not depend on the scan order |
| `BruteForce.SumIsTotal` | crates/issuerd-admin-api/src/attack_detection.rs:156-163 | over counters stored as decimals it is the sum of the numbers |
| `BruteForce.LockedListIgnoresOrder` | crates/issuerd-admin-api/src/attack_detection.rs:98-120 | the sorted lockout list does not depend on the scan order |
| `BruteForce.LockedListMeans` | crates/issuerd-admin-api/src/attack_detection.rs:96-120 | the list holds exactly the stored markers, each with its counter, zero if there is none, and its user id, ordered by user name and address |
| `Sorting.LexLeqIff` | crates/issuerd-admin-api/src/attack_detection.rs:119-119 | names are ordered by the first place where they differ |
| `AttackDetection.Detector.ScanKeys` | crates/issuerd-cluster/src/cache.rs:330-338 | the matching keys, each once, in any order |
| `AttackDetection.Detector.UserKeys` | crates/issuerd-admin-api/src/attack_detection.rs:62-73 | exactly the stored keys with the user's literal prefix |
| `AttackDetection.Detector.UserStatus` | crates/issuerd-admin-api/src/attack_detection.rs:141-172 | the sum of the counters under the user's key prefix, saturated at 2^32 - 1, and whether any marker is left |
| `AttackDetection.Detector.ListLocked` | crates/issuerd-admin-api/src/attack_detection.rs:90-121 | exactly the stored markers of the realm, each with its own counter and user, in order |
| `AttackDetection.Detector.ClearUser` | crates/issuerd-admin-api/src/attack_detection.rs:192-223 | the store without the user's counters and markers |
| `AttackDetection.ClearedIsClean` | crates/issuerd-admin-api/src/attack_detection.rs:192-223 | after a clear the user has no failures and no lock, whatever the name |
| `AttackDetection.ClearTouchesIff` | crates/issuerd-admin-api/src/attack_detection.rs:192-223 | a stored key is dropped if and only if the cleared realm and user cover it as one field; all others keep their values |
| `AttackDetection.ClearingReachesNestedNames` | crates/issuerd-admin-api/src/attack_detection.rs:56-61 | clearing a also drops the counters of a:b |
| `ClientScopes.CanonicalShape` | crates/issuerd-core/src/scope.rs:107-113 | a scope list is strictly increasing and holds exactly the given tokens |
| `ClientScopes.IncreasingIsUnique` | crates/issuerd-core/src/scope.rs:107-113 | lists of that form with the same tokens are equal |
| `ClientScopes.RunAgrees` | crates/issuerd-admin-api/src/client_scopes.rs:813-910 | every run of assignments and unassignments keeps the table and both lists in step |
| `ClientScopes.AgreeingListsAreDisjoint` | crates/issuerd-admin-api/src/client_scopes.rs:813-910 | no scope is on both lists |
| `ClientScopes.LastOperationWins` | crates/issuerd-storage/src/memory.rs:1050-1083 | after any run a scope is assigned as the last accepted operation on it said |
| `ClientScopes.ListsFollowLastOperation` | crates/issuerd-admin-api/src/client_scopes.rs:107-118 | and is on the list that operation named, on neither after an unassignment |
| `ClientScopes.RunsAreDeterminedByLastWords` | crates/issuerd-admin-api/src/client_scopes.rs:813-910 | two runs that agree on the last word about every scope end with the same lists |
| `ClientScopes.Client.AssignScope` | crates/issuerd-admin-api/src/client_scopes.rs:813-865 | the table and both lists after an assignment, or unchanged on an unknown scope or a reserved scope made default |
| `ClientScopes.Client.UnassignScope` | crates/issuerd-admin-api/src/client_scopes.rs:871-910 | the table and both lists after an unassignment, or unchanged on an unknown scope |
| `ClientCache.KeysCollideIff` | crates/issuerd-cluster/src/keys.rs:60-113 | two realms can share a cache key if and only if one id is the other followed by a colon and more |
| `ClientCache.ReadClientIsTransparent` | crates/issuerd-server/src/claims_cache.rs:283-310 | in a coherent state a cached read returns what storage holds, and leaves the cache coherent if and only if no other realm shares the key in the same or an earlier epoch |
| `ClientCache.ReadIdentifierIsTransparent` | crates/issuerd-server/src/claims_cache.rs:340-368 | the same for the reverse map from uuid to identifier, where the other realm may also hold the same identifier |
| `ClientCache.ReadScopesIsTransparent` | crates/issuerd-server/src/claims_cache.rs:312-338 | the same for the default scope ids, empty lists included, where it may also hold the same ids |
| `ClientCache.UpdateKeepsValid` | crates/issuerd-admin-api/src/clients.rs:312-385 | an accepted update, renames included, keeps identifiers unique and the cache coherent |
| `ClientCache.DeleteKeepsValid` | crates/issuerd-admin-api/src/clients.rs:421-446 | so does a delete, of a present or a missing client |
| `ClientCache.RotateKeepsValid` | crates/issuerd-admin-api/src/clients.rs:520-547 | so does a secret rotation |
| `ClientCache.AssignKeepsValid` | crates/issuerd-admin-api/src/client_scopes.rs:813-910 | so does a scope assignment or unassignment |
| `ClientCache.BumpKeepsValid` | crates/issuerd-cluster/src/invalidate.rs:98-104 | so does a bump of the claims epoch |
| `ClientCache.CreateValidIff` | crates/issuerd-admin-api/src/clients.rs:206-240 | an accepted create keeps the cache coherent if and only if it leaves no current entry of an overwritten row, and no current scope ids read before it that are not the seeded ones |
| `ClientCache.OverwriteServesGoneClient` | crates/issuerd-storage/src/memory.rs:582-600 | after an overwrite of a cached row a read returns the client that is gone |
| `ClientCache.NestedRealmsMix` | crates/issuerd-cluster/src/keys.rs:110-113 | with one realm id nested in another, a read of one can return a client of the other |
| `ClientRuns.RunValidIff` | crates/issuerd-admin-api/src/clients.rs:175-547 | identifiers stay unique and the cache coherent through a whole run, realm ids nested or not, if and only if they are at the start, no accepted create leaves an entry stale and no read misleads another realm |
| `ClientRuns.SeparatedSpoilsIff` | crates/issuerd-cluster/src/keys.rs:60-113 | among realms none of which is nested in another no read misleads, so only such creates are left |
| `ClientRuns.ReadsAreTransparent` | crates/issuerd-server/src/claims_cache.rs:283-368 | after any such run a read through the cache is a read of storage, for clients, identifiers and scope ids |
| `ClientRuns.StampsExpire` | crates/issuerd-cluster/src/invalidate.rs:58-78 | once a client's row is changed or dropped, a generation taken before is never current again |
| `ClientRuns.NextAdminIff` | crates/issuerd-core/src/models.rs:2584-2591 | without manage-realm, a client is an admin client after a step if and only if it was and the step leaves its row, or an accepted step leaves it enabled and called admin-cli, or enabled where it carried the access attribute |
| `ClientRuns.RunAdminIff` | crates/issuerd-admin-api/src/clients.rs:206-446 | a run without manage-realm makes no new admin client if and only if none of its steps promotes one so |
| `ClientRuns.RenameMakesAdmin` | crates/issuerd-admin-api/src/clients.rs:312-385 | deleting the admin-cli client and renaming another one to it makes that one an admin client |
| `ClientRuns.RunGrantsNoAccess` | crates/issuerd-admin-api/src/clients.rs:226-232 | the access attribute itself is never granted without manage-realm |
| `ClientRuns.NextGrantsNoAccess` | crates/issuerd-admin-api/src/clients.rs:343-354 | without manage-realm an update, rotation or assignment leaves the holders of the attribute as they were |
| `ClientRuns.RunKeepsClient` | crates/issuerd-admin-api/src/clients.rs:336-358 | through every run a client keeps its ids and scope mappings, and its secret unless an update or a rotation brings one |
| `ClientRuns.UpdateStores` | crates/issuerd-admin-api/src/clients.rs:330-358 | an accepted update stores identifier, switch and settings of the body, a secret or access attribute it brings, and keeps the rest |
| `ClientRuns.Store.EnsureClientIdAvailable` | crates/issuerd-admin-api/src/clients.rs:175-187 | conflict exactly when another client of the realm has the identifier |
| `ClientRuns.Store.CreateClient` | crates/issuerd-admin-api/src/clients.rs:206-240 | forbidden, conflict, or the stored row and assignments with the cache untouched |
| `ClientRuns.Store.UpdateClient` | crates/issuerd-admin-api/src/clients.rs:312-385 | not found, forbidden and conflict in order; else the merged row, what is derived from the old one dropped, and the new identifier's entry too |
| `ClientRuns.Store.DeleteClient` | crates/issuerd-admin-api/src/clients.rs:421-446 | the row, its assignments and what is derived from it gone, a missing client no error |
| `ClientRuns.Store.RotateClientSecret` | crates/issuerd-admin-api/src/clients.rs:520-547 | the new secret stored and returned, and what is derived from the client dropped |
| `ClientRuns.Store.SetScopes` | crates/issuerd-admin-api/src/client_scopes.rs:813-910 | assignments and lists stored, and what is derived from the client dropped |
| `ClientRuns.Store.InvalidateClientClaims` | crates/issuerd-cluster/src/invalidate.rs:58-95 | the identifier's, the uuid's and the scope entry are gone and no other, and the identifier's generation is one higher |
| `ClientRuns.Store.GetClient` | crates/issuerd-server/src/claims_cache.rs:283-310 | a current entry, else storage, cached when found |
| `ClientRuns.Store.GetIdentifier` | crates/issuerd-server/src/claims_cache.rs:340-368 | the same for the reverse map |
| `ClientRuns.Store.GetDefaultScopeIds` | crates/issuerd-server/src/claims_cache.rs:312-338 | the same for the scope ids, cached also when empty |
| `ClientRuns.Store.BumpClaimsEpoch` | crates/issuerd-cluster/src/invalidate.rs:98-104 | the realm's epoch is one higher and nothing else changes |
| `RealmMerge.MergeRealmRepresentation` | crates/issuerd-admin-api/src/dto.rs:1301-1448 | the field-by-field overwrite gives the first bad field in order, or every present field applied and every omitted one kept |
| `RealmMerge.MergeLifespans` | crates/issuerd-admin-api/src/dto.rs:1320-1344 | the leading lifespans, with the cast of stored ones to signed numbers |
| `RealmMerge.PrintAlgorithm` | crates/issuerd-core/src/models.rs:2414-2437 | the wire name of an algorithm parses back to it |
| `RealmMeaning.MergeReportsFirst` | crates/issuerd-admin-api/src/dto.rs:1301-1448 | a merge reports the first bad field of a fixed order and is accepted when all are good: names valid, themes without slashes, lifespans positive or fitting, one-time-password values in range |
| `RealmMeaning.MergeStores` | crates/issuerd-admin-api/src/dto.rs:1301-1448 | an accepted merge stores every given field, names trimmed, and keeps every other |
| `RealmMerge.MergeComposes` | crates/issuerd-admin-api/src/dto.rs:1301-1448 | after an accepted merge, a second one acts, errors included, like one merge of the overlaid bodies |
| `RealmMerge.OtpComposes` | crates/issuerd-admin-api/src/dto.rs:1252-1286 | the one-time-password policy composes field by field |
| `RealmMerge.EmptyMergeIff` | crates/issuerd-admin-api/src/dto.rs:1288-1324 | a body that names only the realm changes nothing if and only if all six stored lifespans fit a signed number |
| `RealmMerge.HugeLifespanIsRefused` | crates/issuerd-admin-api/src/dto.rs:1320-1324 | a stored lifespan of 2^63 makes that body fail |
| `RealmMerge.RepresentationMergesIff` | crates/issuerd-admin-api/src/dto.rs:1450-1505 | what a realm reads as merges back if and only if its lifespans and one-time-password policy are in range, and then changes the sector key at most |
| `RealmMerge.ReplaceIsMergeOverDefaults` | crates/issuerd-admin-api/src/dto.rs:1130-1245 | a full replacement is a merge over the default realm, but for id and name, and is accepted under the same conditions and a valid id and name |
| `RealmMeaning.ReplaceReportsFirst` | crates/issuerd-admin-api/src/dto.rs:1130-1245 | a replacement reports the first bad field of its own order |
| `RealmMeaning.DefaultsAre` | crates/issuerd-core/src/models.rs:2067-2117 | what a realm starts with |
| `RealmMeaning.RealmNameIff` | crates/issuerd-core/src/models.rs:606-645 | a realm name is a valid name of ASCII letters, digits and marks without a meaning in URLs |
| `RealmUpdates.Store.UpdateRealm` | crates/issuerd-admin-api/src/realms.rs:241-281 | the handler stores the converted body with id, name and an unnamed sector key kept, or nothing |
| `RealmUpdates.KeepSectorKey` | crates/issuerd-admin-api/src/realms.rs:268-280 | the stored key survives attributes that do not name it, and no other attribute changes |
| `RealmUpdates.MergeUpdatesComposeIff` | crates/issuerd-admin-api/src/realms.rs:241-281 | two accepted updates equal the overlaid one if and only if not: the first rotates the sector key and the second sends attributes without one |
| `RealmUpdates.OverlayBringsOldKeyBack` | crates/issuerd-admin-api/src/realms.rs:268-280 | two such updates for every valid realm |
| `RealmUpdates.RunKeepsValid` | crates/issuerd-admin-api/src/realms.rs:241-281 | any run of updates in either mode keeps the realm valid, its id and its name |
| `RealmUpdates.ReplacementForgets` | crates/issuerd-admin-api/src/realms.rs:241-281 | an accepted replacement leaves nothing of earlier updates but id, name and sector key |
| `RealmUpdates.SectorKeySurvives` | crates/issuerd-admin-api/src/realms.rs:268-280 | the sector key outlives every run of bodies that do not name it, replacements included |
| `RealmUpdates.ReadBackIff` | crates/issuerd-admin-api/src/dto.rs:278-290 | writing back what was read changes nothing, in either mode, if and only if the stored key is not the empty string |
| `RealmUpdates.ReachableRealmsReadBack` | crates/issuerd-admin-api/src/realms.rs:241-281 | and so it is at every realm that updates can reach |

## Left out

- HTTP routing, role checks on the endpoints, JSON parsing, audit events, metrics and logging: they add no state to the properties above.
- Bearer header parsing, signature validation and issuer parsing: a request carries an already validated token with its realm.
- Filtered and paged composite and role listings, protocol mapper lists and realm-role endpoints: easy members.
- Cache entries that expire, and cache deletes that fail and are only logged.
- Concurrent handlers outside the admin gate: the other stores take one operation at a time.
- How seeding picks a new client's scopes, the check on default MCP scopes, pairwise validation and service-account provisioning in client writes.
- A client update that edits the scope lists directly, past the assignment table.
- The HTML and text mail templates: any well-formed template stands for them.
- Groups, users, sessions, identity providers, keys and events endpoints.
- MoveListing: for fewer than 2^31 credentials, because beyond that the stored priority wraps.
- EveryOrderIsReachable: for fewer than 2^31 credentials, for the same reason.
- NoLateAcceptance: the session case asks for one half of the sessionless shape to stay away, because the exact condition spans several moments; AcceptanceExact states it.
- RemoveUndoesAdd: for stored names that are distinct and resolvable, because the add rewrites any others.
- ReadBackIff: for a policy codec that reads back what it writes.
- RunShields: for runs whose tables stay well formed, because SoundRunIff says when they do.
