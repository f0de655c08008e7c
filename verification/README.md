# Cassandra services, modelled and proved

This project models four parts of the Cassandra operator repository in Dafny and proves what they do on every
input, every failure and every history: the DBaaS adapter, the topology planner and rollout of the operator,
the backup daemon, and the step that keeps the SSH key pair of the backup. `dafny verify dfyconfig.toml` checks
all of it.

## How it is modelled

* **Failures are chosen by the environment.** The cluster is a state of keyspaces, roles and grants
  (`Cassandra.dfy`). Every statement meets a fault: it is answered, it is rejected, or it is applied although the
  client sees an error. A panic that is recovered, a deferred close and a returned error become result values.
  Kubernetes calls, host operations of the backup script, restore events, sessions and remote commands have
  environments of the same kind.
* **Code that changes state is a method proved against a function.** A class holds the state the source changes;
  a method's contract gives the whole new state and result as a function of the old state and of the faults
  (`Run` with a script of statements, `Reconciled`, `Served`, `Events`, `TurnOps`, `PlanCalls`). A method that reports a
  failure must name its cause. The properties are lemmas about those functions.
* **Names are text.** Generated names, claim names, StatefulSet numbers, archive names, the replication map, role
  scripts and paths are printed and read back character by character. CQL folds unquoted names to lower case and keeps
  quoted ones, as the statements of the adapter do.
* **Libraries that are not in the repository** are bodies in the model: the executor runs steps in the order they
  were added and stops at the first error; a claim step appends its printed name to its context variable; waiting for
  pods succeeds only when the pod is ready; a panic on an error ends the run; a UUID prefix is its first seven
  characters; both reads of the key step are sent before either is scanned.

Modules: `Text` (numbers, splitting, searching), `Cassandra`; `DbAdmin`, `DbAdminLaws`, `RequestRole`, `Provisioned`,
`DbUsers`, `Credentials` (adapter); `Topology`, `Validation`, `Seeds`, `Replication`, `Claims`, `BuildOrder`, `Rollout`,
`RolloutLaws`, `Scaling`, `SuperUsers` (operator); `SshKeys`, `PodKeys` (service); `ArchiveNames`, `Walk`, `HostFiles`,
`BackupRun`, `RoleScripts`, `RoleRename`, `RoleReading`, `RoleRestore`, `CloneRoles`, `Restore`, `RestoreLaws`,
`RestoreOrder`, `Completion`, `RoundTrip`, `ClusterRestore` (backup daemon).

## Where the code does less than one would expect

Each of these is stated as it is: a condition that decides when the code meets the property, or a concrete case.

* The rollback of a database creation drops the keyspace of the requested name even when this request did not make
  it: a request for an existing name, or one without a textual replication setting, drops the database that was
  there (`DbAdminLaws.CreateOverExistingDropsIt`, `DbAdminLaws.RollbackRestores`).
* Roles are created under a quoted name and dropped under an unquoted one, so a user name that is not a lower-case
  identifier survives both rollback and drop (`RequestRole.RequestRoleAlwaysGone`, `DbAdminLaws.MixedCaseRoleSurvives`).
  The adapter's name pattern accepts names that CQL refuses, such as `1db`: the creation then fails, and the rollback
  still drops an existing role of the request's name (`DbAdminLaws.RollbackRestores`).
* A role that is there keeps its password when a database is created for it, so the password that is reported logs in
  only if it was the role's already (`Provisioned.ReportedPasswordLogsIn`). The operator's own user is treated alike
  (`SuperUsers.ReconciledLogsIn`).
* A restore in place keeps, of each table, only the rows of the archive read last (`RestoreLaws.InPlaceRoundTrip`,
  `RestoreLaws.InPlaceLosesRows`). A clone keeps the rows of all archives.
* When the hosts' metadata disagree, a later host drops the keyspace together with rows loaded for an earlier one
  (`RestoreLaws.DisagreementDropsLoaded`, `RestoreLaws.SurvivingFromFirstWhole`).
* A keyspace with exactly one role has no role saved, and the backup reports success (`RoleScripts.BackupRoles`).
* In one backup run, an empty keyspace whose name ends in the name of a later one puts its stub into the later
  one's archive (`BackupRun.ArchivesAreExact`, `BackupRun.ClashExample`). When that stub is found first, the schema of the
  keyspace is written into it. A restore completes, if nothing outside fails, exactly when this is not so of the archives
  it takes the schema from (`ClusterRestore.BackupRestores`, `ClusterRestore.CompletesInAnyOrder`); otherwise a restore in
  place with roles has dropped the keyspace before it stops (`ClusterRestore.HiddenSchemaDropsKeyspace`,
  `ClusterRestore.ClashNeverRestores`).
* The metadata entry of a keyspace without snapshots names what lies beside the data directory as its tables
  (`BackupRun.ListedDirIs`).
* A clone replaces the keyspace's name everywhere in the role scripts. All saved roles come back exactly when the name is
  neither in a value of a role nor in what all scripts have in common (`CloneRoles.CloneGivesRolesBack`). A name in a
  value gives the role another name, hash or permission (`RoleRestore.ClonedFilesRestore`,
  `CloneRoles.RelatedRoleIsRenamed`). With a name in a common part the restore does not complete
  (`RoleRestore.CloneRunsThrough`), and may stop at a role that has its own name as the password
  (`CloneRoles.StopsWithOwnName`, `CloneRoles.HashIsInEveryScript`).
* A failed read of the key table looks like an empty table: a stored pair is then replaced, and a stop between the two
  inserts leaves a private key with another key's public half (`SshKeys.PairSurvivesExactlyWhenRead`,
  `SshKeys.UnansweredReadCanSplitPair`).
* Generated seeds of every deployed data center but the first name other pods as soon as some data center is not deployed
  (`Seeds.SeedsNamePods`, `Seeds.LaterDataCenterMissed`).
* The numbers created and deleted split the range of all replicas exactly when every removal key that is a number means
  a removed replica (`Scaling.CreatedAndRemovedPartition`). A key in another notation, such as `01`, without the plain one
  does not. A key out of the range of its own data center deletes a replica of an earlier or later one when its number
  is in the range of all, an active one unless that is removed too (`Scaling.KeyHits`); otherwise it deletes nothing that
  the rollout makes. The validation looks at none of this.
* The depth-bounded walk stops early for a start path that ends in separators: with one separator at depth 1 only,
  with more at every depth (`Walk.WalkLevelExactly`).
* The listing of databases cuts an archive name at the first dash, which is the keyspace only when its name has none
  (`ArchiveNames.ListedNameAgrees`). No keyspace name with a newline is read back (`ArchiveNames.ArchiveNameRoundTrip`).
* `IsAllDCsDeployed` answers false when every data center is deployed, which makes no difference to the map it
  is asked for (`Replication.IsAllDCsDeployed`, `Replication.OmittedExactly`).

## Model

| member | source | states |
|---|---|---|
| Text.DecimalRoundTrip | operator/pkg/impl/cassandra/scaling.go:47 | a printed replica number is a non-empty run of digits that reads back as the number |
| Text.IntegerInjective | operator/pkg/impl/utils/const.go:10 | different numbers, negative ones included, are printed differently |
| Text.OccursAroundDash | services/backup-daemon/src/backup_remote.py:158 | with one dash on each side, the substring test succeeds exactly when what stands before the dash ends in what is searched |
| Cassandra.ApplyKeepsWellFormed | services/dbaas-adapter/impl/cassandra/cassandraService.go:56-84 | no accepted statement leaves a grant without its role or keyspace |
| Cassandra.ConfinedInvisible | services/dbaas-adapter/impl/cassandra/cassandraService.go:56-84 | a statement on given keyspaces and roles changes nothing else |
| Cassandra.RunKeepsWellFormed | services/dbaas-adapter/impl/cassandra/cassandraService.go:29-84 | nor does any run of statements, wherever it fails |
| Cassandra.RunConfined | services/dbaas-adapter/impl/cassandra/cassandraService.go:29-84 | whatever fails, a run of statements is invisible outside the keyspaces and roles they write |
| Cassandra.Cluster.Execute | services/dbaas-adapter/impl/cassandra/cassandraService.go:29-35 | one statement: the new cluster state, and success only when the fault is none and the cluster accepts it |
| DbAdmin.GeneratedNameIsPlain | services/dbaas-adapter/impl/db_admin.go:469-481 | generated user names always match the name pattern, and folding leaves them as they are |
| DbAdmin.Sessions.Open | services/dbaas-adapter/impl/cassandra/session_service.go:36-52 | a session is opened, or the attempt panics and nothing is open |
| DbAdmin.GrantPermissions | services/dbaas-adapter/impl/cassandra/cassandraService.go:73-84 | sends the grants in order up to the first that fails, and returns no error exactly when all worked |
| DbAdmin.CreateAccount | services/dbaas-adapter/impl/db_admin.go:366-371 | one role and its grants, cut off at the first failure |
| DbAdmin.CreateRoleAccounts | services/dbaas-adapter/impl/db_admin.go:351-379 | one user for each supported role in order, the admin under the request's name, the others generated |
| DbAdmin.CreateAccounts | services/dbaas-adapter/impl/db_admin.go:337-379 | the accounts of both API versions, and their users when all worked |
| DbAdmin.UsersAt | services/dbaas-adapter/impl/db_admin.go:351-364 | the k-th user is for the k-th supported role and draws its UUIDs after those of the roles before it |
| DbAdmin.CreateInSession | services/dbaas-adapter/impl/db_admin.go:305-380 | the body inside the session sends exactly its script up to the first failure |
| DbAdmin.CreateDatabase | services/dbaas-adapter/impl/db_admin.go:278-389 | the whole outcome: refused names touch nothing, success leaves the script's effect and returns its connections and resources in order, any failure is followed by both drops; every opened session is closed once |
| Provisioned.CreatedIsUsable | services/dbaas-adapter/impl/db_admin.go:305-379 | after a completed creation the metadata table holds the metadata and the trimmed replication under their ids; the permissions on the keyspace are exactly those of each user's service role, ALL in v1; every new user has the password its connection reports, and no role that was there has changed |
| Provisioned.ReportedPasswordLogsIn | services/dbaas-adapter/impl/db_admin.go:338-368 | a user logs in with the reported password if and only if its role was not there or had this password already |
| Provisioned.ConnectionsServe | services/dbaas-adapter/impl/db_admin.go:217-239 | one connection for each service role in order, with the address, keyspace and role it is for; the admin's has the credentials of the request |
| Provisioned.GeneratedApart | services/dbaas-adapter/impl/db_admin.go:362-363 | generated users draw a UUID for each name and each password, so names and passwords differ as far as the UUIDs do |
| Provisioned.NamesAreChecked | services/dbaas-adapter/impl/db_admin.go:176-215 | a database name, the requested one after the prefix of the request or the default one, was checked against the pattern together with the user name, unless the classifier was complete; then it is the prepared one with underscores for dashes |
| DbAdmin.DropResources | services/dbaas-adapter/impl/db_admin.go:409-431 | all drops are tried in order; the statuses keep the input's order and say DELETED exactly for the drops that worked; the session is closed once |
| DbAdminLaws.RunGrows | services/dbaas-adapter/impl/db_admin.go:305-379 | however far a creation gets, the cluster is the old one plus one keyspace, grants on it and new roles |
| DbAdminLaws.ScriptAdds | services/dbaas-adapter/impl/db_admin.go:305-379 | a creation writes its own keyspace only and creates exactly the roles of its users |
| DbAdminLaws.DropsRemove | services/dbaas-adapter/impl/db_admin.go:409-431 | when every drop worked, exactly the named keyspaces, roles and their grants are gone |
| DbAdminLaws.DropWorksExactly | services/dbaas-adapter/impl/db_admin.go:420-423 | a drop works if and only if nothing outside fails, its kind is known and CQL accepts the name |
| DbAdminLaws.RollbackDropsKeyspaceFirst | services/dbaas-adapter/impl/db_admin.go:295-300 | of the two drops of a rollback the keyspace comes first |
| DbAdminLaws.CreateThenDropIsIdentity | services/dbaas-adapter/impl/db_admin.go:278-431 | a completed creation followed by a completed bulk drop of its resources restores the cluster exactly, in v1, v2 and multi-user mode, if and only if every user name is reversible: no role has its folded name, and it is lower-case or was there before |
| DbAdminLaws.RollbackRestores | services/dbaas-adapter/impl/db_admin.go:289-381 | whatever statement fails, applied or not, when the environment lets both drops through: all that existed is untouched if and only if neither the keyspace nor the request's role existed, as far as CQL accepts to drop under these names; no keyspace is left over, and a left-over role is a generated one or a request's that is not droppable |
| DbAdminLaws.RollbackSparesOthers | services/dbaas-adapter/impl/db_admin.go:289-303 | whatever fails, the drops included, no other keyspace, no other role and no grant between others is touched |
| RequestRole.RequestRoleAlwaysGone | services/dbaas-adapter/impl/db_admin.go:298-300 | over all failures, the request's role is gone after the rollback if and only if its name is a lower-case identifier, or it was not there and the request cannot come to creating it |
| RequestRole.NeverMade | services/dbaas-adapter/impl/db_admin.go:305-379 | a request without replication or metadata, with a database name that is taken or refused, without a use for its user name, or with a user up to that one whose name or password CQL refuses never creates that role |
| RequestRole.LostAnswer | services/dbaas-adapter/impl/db_admin.go:337-368 | any other request may fail with its role created: the answer to the statement is lost |
| DbAdminLaws.MixedCaseRoleSurvives | services/dbaas-adapter/impl/db_admin.go:298-300 | the user Bob is left over when its grant is refused |
| RequestRole.SingleUserIsAllOrNothing | services/dbaas-adapter/impl/db_admin.go:289-381 | with one user, v1 or the admin as the only role, every failed creation leaves the cluster as it was if and only if the request names no existing keyspace or role that CQL would drop, and its role is droppable, was there, or cannot be created |
| RequestRole.CalmCreationCompletes | services/dbaas-adapter/impl/db_admin.go:305-380 | when nothing outside fails, a creation completes if and only if it has replication and metadata, a name that CQL accepts and that is free, and users that CQL accepts |
| DbAdminLaws.CreateOverExistingDropsIt | services/dbaas-adapter/impl/db_admin.go:290-308 | a request for a name that is taken never succeeds, and its rollback drops exactly the keyspace that was there and the role of the request's name, where CQL accepts these names |
| DbUsers.UserScriptConfined | services/dbaas-adapter/impl/db_admin.go:527-580 | adding or updating a user writes only that user's role and grants |
| DbUsers.SendUserScript | services/dbaas-adapter/impl/db_admin.go:535-580 | an existing user with a permission on the database or on all keyspaces gets a new password, one without is refused, a new one gets its role's permissions; cut off at the first failure |
| DbUsers.CreateUser | services/dbaas-adapter/impl/db_admin.go:504-592 | refuses exactly the names outside the pattern, before any session; otherwise the state after its script and the answer of a run without failure; every opened session is closed |
| Credentials.NewUserIsUsable | services/dbaas-adapter/impl/db_admin.go:566-580 | a reported new user logs in with the reported password and may do on the database exactly what its service role allows |
| Credentials.NewUserRefused | services/dbaas-adapter/impl/db_admin.go:566-580 | when nothing outside fails, a new user is refused if and only if CQL refuses its name or password, or its service role has permissions and the database is not there |
| Credentials.UpdatedUserLogsIn | services/dbaas-adapter/impl/db_admin.go:543-565 | a reported existing user logs in with the new password and keeps its permissions and rank; nothing else changes |
| Credentials.ExistingUserRefused | services/dbaas-adapter/impl/db_admin.go:545-560 | when nothing outside fails, an existing user is refused if and only if the database is not there or has granted it nothing, or CQL refuses the name or the password |
| Credentials.UnansweredChangesNothing | services/dbaas-adapter/impl/db_admin.go:527-553 | while roles or permissions cannot be listed, nothing is done |
| DbUsers.MissingRoles | services/dbaas-adapter/impl/db_admin.go:129-130 | a role is missing exactly when it is supported and not among the existing ones |
| DbUsers.MissingAppend | services/dbaas-adapter/impl/db_admin.go:129-130 | missing roles keep the supported order |
| DbUsers.UserScriptEffect | services/dbaas-adapter/impl/db_admin.go:527-580 | whatever fails, no role is lost, no other user changes, and a reported user exists |
| DbUsers.CreateForRole | services/dbaas-adapter/impl/db_admin.go:130-146 | one generated user for a role, its connection and resource, or a panic and where it left the cluster |
| DbUsers.CreateMissing | services/dbaas-adapter/impl/db_admin.go:118-148 | one user for each missing role in supported order up to the first panic, with the connections and resources of those users |
| DbUsers.UsersMadeFor | services/dbaas-adapter/impl/db_admin.go:129-148 | the users made are for the first missing roles, generated, and there; nothing else has changed |
| DbUsers.CreateRoles | services/dbaas-adapter/impl/db_admin.go:101-159 | the batch computes exactly the requests served in order up to the first failure |
| DbUsers.BatchShape | services/dbaas-adapter/impl/db_admin.go:101-159 | the successes are the first requests in order, each with exactly the users its database lacked, all of which exist; a failure carries the id of the request after them; without one all succeeded; only generated users changed |
| Credentials.ReportedUsersAreUsable | services/dbaas-adapter/impl/db_admin.go:101-159 | while the names drawn are new and differ, all users that a batch reports, before a failure too, are usable at its end |
| Credentials.ReportedUserWorks | services/dbaas-adapter/impl/db_admin.go:129-148 | each reported connection logs in with its password, and its role has exactly the permissions of the service role its database lacked |
| SuperUsers.FreshIsAccessible | operator/pkg/impl/utils/utils.go:49-53 | a new cluster has its default superuser, whose credentials the operator uses |
| SuperUsers.PerformKeepsAccess | operator/pkg/impl/utils/utils.go:45-79 | creating the superuser, changing its password and dropping the default one each keep a superuser that can log in with credentials the operator has used, whatever became of the statement |
| SuperUsers.NeverLockedOut | operator/pkg/impl/cassandra/user_steps.go:21-56 | no lock-out after any number of events of any history from the default superuser, other people's work on ordinary roles included |
| SuperUsers.DefaultDroppedByAnother | operator/pkg/impl/cassandra/user_steps.go:43-56 | the default superuser is dropped only in the session of another superuser, which stays as it was |
| SuperUsers.Access.CheckLogin | operator/pkg/impl/utils/utils.go:104-109 | true exactly when a session can be opened under the name and password |
| SuperUsers.Access.Reconcile | operator/pkg/impl/cassandra/cassandra.go:142-159 | the three steps in order, each under its condition, up to the first failure or the point where the run is stopped |
| SuperUsers.ReconciledKeepsAccess | operator/pkg/impl/cassandra/user_steps.go:21-56 | a reconciliation keeps access wherever it stops |
| SuperUsers.OrdersKeepAccess | operator/pkg/impl/cassandra/cassandra.go:142-159 | so does any sequence of reconciliations from a new cluster |
| SuperUsers.CleanRunReplacesDefault | operator/pkg/impl/cassandra/user_steps.go:43-56 | a completed clean deployment under another user name has dropped the default superuser, and the operator's own can log in |
| SuperUsers.ReconciledLogsIn | operator/pkg/impl/utils/utils.go:45-79 | after a completed reconciliation the operator's user logs in with the wanted password, the new one of a rotation, if and only if it was rotated, or the user is the default one, was not there or had the password already; a user it made is a superuser |
| SuperUsers.CalmReconciliationCompletes | operator/pkg/impl/cassandra/user_steps.go:21-56 | where nothing outside fails, an order without a rotation completes, on a new cluster and on one where it completed before |
| Topology.CountedReplicas | operator/api/v1alpha1/cassandra_types.go:77-101 | the nested loops compute the active replicas for any count, and panic exactly on a negative one without removal maps |
| Topology.GetActiveReplicas | operator/api/v1alpha1/cassandra_types.go:77-101 | the same for the counts of a schema |
| Topology.ActiveBelowExact | operator/api/v1alpha1/cassandra_types.go:77-101 | the active replicas are, in increasing order, exactly those below the count that no removal map prints |
| Topology.ActiveWithoutRemovals | operator/api/v1alpha1/cassandra_types.go:94-99 | without removal maps they are all replicas |
| Topology.IsListed | operator/api/v1alpha1/cassandra_types.go:81-88 | found exactly when the printed number is a key of some removal map |
| Topology.FilterDC | operator/pkg/impl/utils/utils.go:347-356 | the data centers that pass the filter, in order |
| Topology.AllDeployedKept | operator/pkg/impl/utils/utils.go:347-356 | filtering by deployment keeps all exactly when all are deployed |
| Topology.RankFinds | operator/pkg/impl/utils/utils.go:347-356 | a deployed data center stands at its rank in the filtered list |
| Topology.CalcReplicaIndex | operator/pkg/impl/utils/utils.go:293-308 | replicas of the data centers before it, or none when some data center is not deployed, plus the replica's own number |
| Topology.NumberingInjective | operator/pkg/impl/utils/utils.go:293-308 | no two replicas of deployed data centers share a number |
| Topology.NumberingOnto | operator/pkg/impl/utils/utils.go:293-308 | every number below the total belongs to a replica |
| Topology.StatefulSetNameInjective | operator/pkg/impl/utils/const.go:10 | different numbers give different StatefulSet names |
| Validation.CheckStorage | operator/pkg/impl/common/initial_validations_step.go:41-57 | accepts exactly when every storage is mounted and no two share a name or path, and panics exactly when a nil storage is met before an offence |
| Validation.Validate | operator/pkg/impl/common/initial_validations_step.go:16-61 | accepts exactly the valid schemas, and panics exactly when the first data center that is not acceptable has replicas and seeds but no storage, or a nil one that is met |
| Seeds.PodHostInjective | operator/pkg/impl/utils/utils.go:321-329 | different StatefulSets of a data center have different hosts |
| Seeds.PodHostParts | operator/pkg/impl/utils/utils.go:321-329 | a seed host splits at its dots into the pod of the StatefulSet, the service, the namespace, svc and the domain |
| Seeds.DataCenterSeeds | operator/pkg/impl/common/seeds_step.go:28-47 | the first active replicas up to the seed count, or the given list of a deployed data center |
| Seeds.SeedsStep | operator/pkg/impl/common/seeds_step.go:18-64 | the context variable of each data center and the list of all, in order |
| Seeds.SeedsNamePods | operator/pkg/impl/common/seeds_step.go:28-57 | the generated seeds of a deployed data center of a valid schema are the hosts of its own first active pods if and only if all data centers are deployed or it is the first that is |
| Seeds.LaterDataCenterMissed | operator/pkg/impl/utils/utils.go:293-308 | with some undeployed, the first seed of any later deployed data center is not the host of its first active pod |
| Seeds.AllSeedsExactly | operator/pkg/impl/common/seeds_step.go:28-57 | a host is a seed if and only if a deployed data center was given it, or it is that of one of the first active replicas, as many as there are seeds, of a data center without a list |
| Seeds.EveryDeployedDataCenterHasSeed | operator/pkg/impl/common/initial_validations_step.go:26-35 | a validated schema yields at least one seed for each deployed data center, min(seeds, active) of them |
| Seeds.JoinedSeedsRead | operator/pkg/impl/common/seeds_step.go:49-61 | the joined text splits back into the seeds |
| Replication.ReplicationRoundTrip | operator/pkg/impl/utils/utils.go:88-99 | for quote-free names, the printed map reads back as data centers and counts in order |
| Replication.IsAllDCsDeployed | operator/pkg/impl/utils/utils.go:180-216 | true exactly when some data center is not deployed here and the peers plus one are all active replicas; panics exactly when it needs a session and gets none |
| Replication.GetReplicationFactor | operator/pkg/impl/utils/utils.go:81-103 | prints the listed data centers in spec order |
| Replication.OmittedExactly | operator/pkg/impl/utils/utils.go:81-103 | a data center is left out exactly when it is not deployed here and peers plus one differ from the active total; a listed one has its own count |
| Replication.ListedOrigin | operator/pkg/impl/utils/utils.go:86-95 | every entry is a data center of the schema |
| Replication.ListedAt | operator/pkg/impl/utils/utils.go:86-95 | every data center that should be listed is |
| Claims.ClaimNameParts | operator/pkg/impl/cassandra/cassandra.go:70-84 | data center, replica and additional storage can be read off a claim name |
| Claims.ClaimNameInjective | operator/pkg/impl/cassandra/cassandra.go:70-84 | claim names of different data center, replica or storage differ |
| Claims.ContextKeyInjective | operator/pkg/impl/cassandra/cassandra.go:75 | so do the context variables of the storages |
| Claims.AddClaimSteps | operator/pkg/impl/cassandra/cassandra.go:77-104 | one claim step for each active replica, in order |
| Claims.AddDcSteps | operator/pkg/impl/cassandra/cassandra.go:69-135 | the steps of a data center: claims, node storing for the main storage only, recycling when installed |
| Claims.AddClusterSteps | operator/pkg/impl/cassandra/cassandra.go:137-159 | the eleven later steps in their order |
| Claims.Build | operator/pkg/impl/cassandra/cassandra.go:33-167 | the whole plan: the claims of the deployed data centers, then the later steps; panics exactly on a nil storage that gets a step |
| Claims.AfterStepsGathers | operator/pkg/impl/cassandra/cassandra.go:85-103 | a context variable ends with the names its claim steps appended, in order |
| Claims.PlanGathers | operator/pkg/impl/cassandra/cassandra.go:69-104 | the variable of a data center's storage gathers exactly the claims of that storage, one for each active replica |
| Claims.PlanStores | operator/pkg/impl/cassandra/cassandra.go:106-112 | the nodes of a data center are stored exactly when it has a storage |
| Claims.PlanFillsContext | operator/pkg/impl/cassandra/cassandra.go:69-104 | running the plan on an empty context gives the rollout its claims and node variables, and leaves the seeds alone |
| BuildOrder.PlanInOrder | operator/pkg/impl/cassandra/cassandra.go:69-159 | all steps about volumes come first; of the others each is there once: pods before the superuser and before removals, the default user's drop after both changes to the operator's own |
| BuildOrder.RecyclingInTime | operator/pkg/impl/cassandra/cassandra.go:106-131 | a recycling step comes after its data center's nodes are stored and after all claims of its storage |
| BuildOrder.RecycledExactly | operator/pkg/impl/cassandra/cassandra.go:119-131 | with a recycler every storage of every deployed data center is recycled, without one none |
| Claims.SelectMounts | operator/pkg/impl/cassandra/statefulsets_step.go:216-221 | the map from claims to mounts of one StatefulSet, or the panic on a missing variable |
| Claims.MountsAreOwnClaims | operator/pkg/impl/cassandra/statefulsets_step.go:216-221 | each StatefulSet mounts, for every storage, the claim named after its own data center, replica and storage, and nothing else |
| Claims.OwnClaimsApart | operator/pkg/impl/cassandra/statefulsets_step.go:216-221 | no claim is mounted by two StatefulSets |
| Claims.VolumesApart | operator/pkg/impl/cassandra/templates.go:43-54 | in a validated schema the volumes of one StatefulSet have different names, so none is lost |
| Claims.ClaimsAligned | operator/pkg/impl/cassandra/statefulsets_step.go:174-221 | the three together, for every schema and every two active replicas |
| Rollout.NamesApart | operator/pkg/impl/cassandra/statefulsets_step.go:232-246 | different planned replicas have different StatefulSet names |
| Rollout.SlotsInPlan | operator/pkg/impl/cassandra/statefulsets_step.go:106-174 | the plan visits every active replica once, in data center order |
| Rollout.PlanIsValid | operator/pkg/impl/cassandra/statefulsets_step.go:35-36 | the plan over the deployed data centers is well-formed |
| Rollout.Prepare | operator/pkg/impl/cassandra/statefulsets_step.go:174-246 | number, rack, seeds and claims of one StatefulSet, or the panic on a short address list or a missing variable |
| Rollout.Recreate | operator/pkg/impl/cassandra/statefulsets_step.go:250-265 | deletes, creates and awaits one StatefulSet, touching no other; an abort is cut off at the call that failed |
| Rollout.RollSlot | operator/pkg/impl/cassandra/statefulsets_step.go:174-268 | one turn moves the rollout from between two planned ones to between the next two, or stops within one |
| Rollout.RollDataCenter | operator/pkg/impl/cassandra/statefulsets_step.go:107-268 | one data center of any plan, with the panic on missing seeds or nodes |
| Rollout.Execute | operator/pkg/impl/cassandra/statefulsets_step.go:23-272 | at every point of every run, aborted ones included, exactly the first k planned StatefulSets are recreated and ready and only the next one differs from before; a completed run sends exactly three calls for each planned one; an abort has a cause: a call that failed, a StatefulSet that cannot be prepared, or a data center without seeds or nodes |
| Rollout.AtMostOneDown | operator/pkg/impl/cassandra/statefulsets_step.go:250-265 | when all planned ones are ready at the start, such a point has at most one down, and the end none |
| Rollout.HistoryRolls | operator/pkg/impl/cassandra/statefulsets_step.go:106-269 | hence at most one is down after every call of every run |
| RolloutLaws.CompletedObjects | operator/pkg/impl/cassandra/statefulsets_step.go:101-269 | after a completed rollout every active replica has its ready StatefulSet, with its number, the name of its own data center, the seeds of the cluster and its rack: the racks in turn by replica number, rack1 without racks |
| RolloutLaws.SharedRackExactly | operator/pkg/impl/cassandra/statefulsets_step.go:180-185 | two replicas of a data center with distinct racks share one if and only if their numbers agree modulo the number of racks |
| RolloutLaws.CompletedMounts | operator/pkg/impl/cassandra/statefulsets_step.go:214-221 | and mounts its own claims, one for each storage |
| RolloutLaws.CalmRolloutCompletes | operator/pkg/impl/cassandra/statefulsets_step.go:52-269 | when every Kubernetes call succeeds, a rollout completes if and only if seeds, node variables, claims, mount settings and the addresses of all active replicas are there |
| RolloutLaws.PlannedIsPreparable | operator/pkg/impl/cassandra/statefulsets_step.go:101-221 | over the planned claims of a valid schema that comes down to the seeds and the address lists |
| Scaling.AtoiReadsDecimal | operator/pkg/impl/cassandra/scaling.go:47 | the parsed key is the number printed on the other side |
| Scaling.CreatedAreSlots | operator/api/v1alpha1/cassandra_types.go:77-101 | the created numbers are those of the active replicas |
| Scaling.EveryNumberHandled | operator/pkg/impl/cassandra/scaling.go:41-66 | for any keys, every number below the total is created or deleted, and every created one is below it |
| Scaling.RemovedExactly | operator/api/v1alpha1/cassandra_types.go:77-101 | a number is a removed replica's exactly when it is in range and not created |
| Scaling.ApartExactly | operator/pkg/impl/cassandra/scaling.go:41-66 | created and deleted numbers are apart exactly when no key has the number of an active replica |
| Scaling.CreatedAndRemovedPartition | operator/pkg/impl/cassandra/scaling.go:41-66 | for any schema and any keys, created and deleted numbers split the range of all replicas if and only if every key that is a number means a removed replica |
| Scaling.InRangeMeansCanonical | operator/api/v1alpha1/cassandra_types.go:84 | among keys in the range of their own data center these are exactly the ones that come with the plain decimal |
| Scaling.KeyHits | operator/pkg/impl/cassandra/scaling.go:47-51 | a key whose number is in the range of all replicas deletes a replica of an earlier data center when it is negative, of a later one when it is not below its own count, and of its own otherwise; an active one unless that is removed |
| Scaling.KeyOutOfRangeHitsNeighbour | operator/pkg/impl/cassandra/scaling.go:47-51 | an instance: the key 3 of three replicas deletes the first replica of the next data center |
| Scaling.RemoveNode | operator/pkg/impl/cassandra/scaling.go:46-63 | one entry: the StatefulSet of its number is deleted, the pods are listed; a panic has a cause |
| Scaling.RemoveMapped | operator/pkg/impl/cassandra/scaling.go:46-63 | one removal map in any order of its keys, each once |
| Scaling.RemoveInDataCenter | operator/pkg/impl/cassandra/scaling.go:45-64 | the removal maps of one data center |
| Scaling.RemoveNodes | operator/pkg/impl/cassandra/scaling.go:33-68 | a completed step has deleted exactly the StatefulSets of all keys, whatever the iteration order; an aborted one only some of them, and for a cause |
| Scaling.DoomedExactly | operator/pkg/impl/cassandra/scaling.go:47-51 | an active replica's StatefulSet is deleted exactly when some key has its number |
| Scaling.RemovalSparesActive | operator/pkg/impl/cassandra/scaling.go:41-66 | no active replica's StatefulSet is deleted if and only if no key has the number of an active replica |
| Scaling.RolloutThenRemoval | operator/pkg/impl/cassandra/cassandra.go:140-149 | after a rollout and a removal, an active replica's StatefulSet is there, as planned and ready, exactly when no key has its number, and nothing is there under a removed number |
| SshKeys.EnsureKeys | services/service/pkg/backup/ssh_key_step.go:66-108 | both reads, then the four writes of a new pair or the one of a found pair, up to the first failure, also of key generation; publishes the pair it stored or found when the secret can be made |
| SshKeys.StorePair | services/service/pkg/backup/ssh_key_step.go:82-85 | the four writes up to the first that fails |
| SshKeys.WritesInOrder | services/service/pkg/backup/ssh_key_step.go:82-85 | wherever the four writes stop, the table holds its old rows, the new public key besides, or both new keys |
| SshKeys.KeyStepKeepsPair | services/service/pkg/backup/ssh_key_step.go:72-105 | with answered reads, a run that stops anywhere keeps a private key with its own public key, never touches a complete pair, and publishes the stored pair when it completes |
| SshKeys.CompletedRunReplicates | services/service/pkg/backup/ssh_key_step.go:82-90 | a completed run has given the keys' keyspace the replication asked for, unless it made the keys in a keyspace that was there |
| SshKeys.CalmKeyStepCompletes | services/service/pkg/backup/ssh_key_step.go:70-96 | when nothing outside fails, a run completes if and only if a pair is stored or key generation comes up with one |
| SshKeys.PairSurvivesStops | services/service/pkg/backup/ssh_key_step.go:72-105 | so does any number of runs from an empty table, each stopped between any two statements or not at all, and the first complete pair is the last |
| SshKeys.PairSurvivesExactlyWhenRead | services/service/pkg/backup/ssh_key_step.go:72-85 | a complete pair survives a run if and only if the reads whose rows are scanned are answered or the new public key does not reach the table |
| SshKeys.UnansweredReadCanSplitPair | services/service/pkg/backup/ssh_key_step.go:75-85 | a failed read and a stop between the inserts leave a private key with another public key |
| SshKeys.TryPod | services/service/pkg/backup/ssh_key_step.go:138-156 | one attempt sends the commands in order up to the first failure, and passes exactly when all worked |
| SshKeys.PropagateToPod | services/service/pkg/backup/ssh_key_step.go:135-168 | attempts below the limit that fail and then one that passes, or as many failures as the limit |
| SshKeys.Propagate | services/service/pkg/backup/ssh_key_step.go:117-173 | every pod passed had all commands succeed in one attempt; a panic comes after exactly the limit of failed attempts on one pod; the log is those attempts and nothing else |
| PodKeys.CompletedStepInstalls | services/service/pkg/backup/ssh_key_step.go:117-173 | after a completed step the file of authorized keys of every pod holds exactly the public key, for its owner only, whatever earlier attempts did |
| ArchiveNames.MatchArchive | services/backup-daemon/src/os_utils.py:79-81 | the greedy pattern, by backtracking from the end of the line |
| ArchiveNames.LastStampIsLast | services/backup-daemon/src/os_utils.py:79-81 | it takes the last stamp of the first line |
| ArchiveNames.ArchiveNameRoundTrip | services/backup-daemon/src/backup_remote.py:263-264 | the printed archive name gives back its keyspace, dashes and embedded stamps included, if and only if the name has no newline |
| ArchiveNames.CutIsBackupName | services/backup-daemon/src/backup_and_restore.py:156 | cutting seven characters leaves the snapshot tag |
| ArchiveNames.ListedNameAgrees | services/backup-daemon/src/backup_and_restore.py:284-286 | the listing shows the keyspace if and only if its name has no dash |
| ArchiveNames.FindHostArchives | services/backup-daemon/src/os_utils.py:71-85 | the archives of every host directory in order |
| ArchiveNames.ArchiveFound | services/backup-daemon/src/os_utils.py:71-85 | an archive made on a host is found there with its own keyspace |
| ArchiveNames.ArchivesFoundExactly | services/backup-daemon/src/os_utils.py:71-85 | a backup is found if and only if it is a file named like an archive in a directory whose name begins as a host's does |
| Walk.Drain | services/backup-daemon/src/backup_remote.py:148-152 | visiting with an explicit stack yields the walk that does not follow pruned directories |
| Walk.WalkLevel | services/backup-daemon/src/backup_remote.py:131-152 | nothing at depth zero, the pruned walk otherwise |
| Walk.PrunedIsShallow | services/backup-daemon/src/backup_remote.py:147-152 | pruning by counting separators is cutting by depth, below a path without trailing separator |
| Walk.StartIsShallow | services/backup-daemon/src/backup_remote.py:147-152 | from any start path, the walk is the full top-down walk cut at a depth that depends on its trailing separators |
| Walk.WalkLevelExactly | services/backup-daemon/src/backup_remote.py:131-152 | for every tree, the walk is the full one filtered to the given depth if and only if the path ends in no separator, or in one and the depth is at least two |
| Walk.NegativeDepthWalksAll | services/backup-daemon/src/backup_remote.py:141-144 | a negative depth is the full walk |
| Walk.WalkReaches | services/backup-daemon/src/backup_remote.py:157-159 | every directory up to the depth is yielded under its path |
| Walk.WalkOnlyReaches | services/backup-daemon/src/backup_remote.py:157-159 | and nothing else is |
| HostFiles.TreeOf | services/backup-daemon/src/backup_remote.py:148 | the tree that is walked: it has exactly the directories of the host and those above them |
| HostFiles.PathReads | services/backup-daemon/src/backup_remote.py:157-159 | the text of a path reads back as its names |
| HostFiles.SearchWalk | services/backup-daemon/src/backup_remote.py:155-160 | walking the tree to a depth of four and keeping the roots that hold a name finds exactly the directories at most four deep whose path holds it |
| BackupRun.FindSnapshotDirs | services/backup-daemon/src/backup_remote.py:155-160 | this search on the host's directories |
| BackupRun.NamedShown | services/backup-daemon/src/backup_remote.py:158 | of all directories, those above a snapshot or stub included, only snapshots and stubs carry a backup's name |
| BackupRun.SnapshotMatches | services/backup-daemon/src/backup_remote.py:158 | a snapshot directory always carries the name of its own backup |
| BackupRun.StubMatches | services/backup-daemon/src/backup_remote.py:158 | a stub carries another keyspace's backup name if and only if its keyspace's name ends in the other's |
| BackupRun.FoundExactly | services/backup-daemon/src/backup_remote.py:272 | while a keyspace is served, the search finds its snapshots and exactly the mistaken stubs, and no earlier snapshot of the run |
| BackupRun.ClearingSnapshots | services/backup-daemon/src/backup_remote.py:289-292 | clearing takes away exactly this keyspace's snapshots |
| BackupRun.TakeSnapshots | services/backup-daemon/src/backup_remote.py:266-270 | the snapshots of a whole keyspace or of each table, up to the first failure |
| BackupRun.SearchOrStub | services/backup-daemon/src/backup_remote.py:272-278 | what is archived: the directories found or a new stub |
| BackupRun.SaveAndClear | services/backup-daemon/src/backup_remote.py:282-292 | roles, schema and archive in order up to the first failure, and the snapshot cleared in either case |
| BackupRun.PrepareMetadata | services/backup-daemon/src/backup_remote.py:201-216 | the entry of a keyspace: the tables asked for, or what the directory three levels above the archive's first one lists |
| BackupRun.ListedDirIs | services/backup-daemon/src/backup_remote.py:206-210 | for a snapshot that is the keyspace's directory; for a stub, the one above the data directory |
| BackupRun.Collect | services/backup-daemon/src/backup_remote.py:261-280 | snapshots, directories and metadata entry; each failure is an exception with its cause |
| BackupRun.BackupKeyspace | services/backup-daemon/src/backup_remote.py:260-294 | one turn: its archive, metadata and operations; a failure to save ends with the snapshot cleared; any other has its cause |
| BackupRun.Backup | services/backup-daemon/src/backup_remote.py:260-301 | the whole run: each archive holds what the search found for its keyspace, even when the run fails later; the operations are exactly those of the finished turns and the metadata; a failure has a cause |
| BackupRun.ArchivesArePacked | services/backup-daemon/src/backup_remote.py:266-292 | every archive was written after roles and schema of its keyspace were saved into its first directory, after all its snapshots were taken and before they were cleared, and all of this succeeded |
| BackupRun.MetadataIsRight | services/backup-daemon/src/backup_remote.py:195-216 | the metadata entry of a whole keyspace names what its listing showed, cut at the first dash; that of a part the tables asked for |
| BackupRun.ArchivesAreExact | services/backup-daemon/src/backup_remote.py:260-294 | for distinct keyspaces, every archive holds exactly its own snapshots, or its stub, if and only if no earlier keyspace without snapshots has a name that ends in a later one's |
| BackupRun.ClashExample | services/backup-daemon/src/backup_remote.py:276-278 | an empty big_ks before ks is such a case |
| RoleScripts.WriteScript | services/backup-daemon/src/backup_remote.py:185-188 | the text of a role's script: creation, hash and every permission in order |
| RoleScripts.WriteFiles | services/backup-daemon/src/backup_remote.py:175-191 | a file for each role but the two skipped ones, up to the first role without a hash, which is a failure, or without a row, which is an exception |
| RoleScripts.BackupRoles | services/backup-daemon/src/backup_remote.py:163-191 | nothing for excluded keyspaces, an error without roles, nothing and success for one role, the files for two or more |
| RoleScripts.EveryRoleIsSaved | services/backup-daemon/src/backup_remote.py:175-191 | a finished backup has a file of exactly the roles with a hash other than the default user and its own, and each is the role's script with that hash and its permissions |
| RoleScripts.ReadFile | services/backup-daemon/src/cassandra_client.py:86-91 | the non-blank pieces between semicolons, stripped |
| RoleScripts.LinesRead | services/backup-daemon/src/cassandra_client.py:86-91 | lines that end in a semicolon read back as they were |
| RoleScripts.ReadPrint | services/backup-daemon/src/backup_remote.py:185-188 | a printed statement means the statement it was printed from |
| RoleScripts.ScriptTextRoundTrip | services/backup-daemon/src/cassandra_client.py:83-91 | splitting and stripping the written text gives back exactly the statements written if and only if no value holds a semicolon |
| RoleScripts.ScriptRoundTrip | services/backup-daemon/src/cassandra_client.py:83-91 | for values whose quotes and blanks do not disturb the statements either, the text is understood as those statements |
| RoleScripts.RunFile | services/backup-daemon/src/cassandra_client.py:83-91 | runs the statements of a file up to the first failure |
| RoleScripts.ScriptRestores | services/backup-daemon/src/backup_remote.py:185-188 | a script that runs through gives its role the saved hash and permissions and changes nothing else |
| RoleScripts.RestoredAllIs | services/backup-daemon/src/backup_and_restore.py:77-83 | all scripts together: every saved role has its hash and permissions, all else is as it was |
| RoleScripts.OrderDoesNotMatter | services/backup-daemon/src/backup_and_restore.py:70-83 | whatever order the files are found in |
| RoleScripts.RestoringTwiceIsOnce | services/backup-daemon/src/backup_and_restore.py:77-83 | running all scripts twice equals running them once |
| RoleScripts.FileOfRole | services/backup-daemon/src/backup_remote.py:190-191 | with one row for each role, its file is its script |
| RoleScripts.FileHasAllScripts | services/backup-daemon/src/backup_remote.py:190-191 | a role that is met more than once has all its scripts in its file, in order |
| RoleRestore.RestoreRoles | services/backup-daemon/src/backup_and_restore.py:68-83 | renames the files in a clone and runs them one after the other up to the first failure |
| RoleRestore.FilesRestore | services/backup-daemon/src/backup_and_restore.py:68-83 | files written by the backup and run without error restore the saved roles |
| RoleRestore.FilesRunThrough | services/backup-daemon/src/cassandra_client.py:83-91 | when nothing outside fails and the keyspace is there, the files of roles with names run without error |
| RoleRename.ReplaceAcross | services/backup-daemon/src/os_utils.py:60-65 | no match of the name reaches across a sign it does not have |
| RoleRename.ReplacedSame | services/backup-daemon/src/os_utils.py:60-65 | replacing a name by another one changes a text if and only if the text holds the name |
| RoleRename.AlikeGlue | services/backup-daemon/src/os_utils.py:60-65 | replacements in the parts of a text all move the same way, so no two of them cancel out |
| RoleRename.ScriptRenamed | services/backup-daemon/src/backup_and_restore.py:78-82 | unless the keyspace's name is in a part that all scripts have in common, the renamed script of a role is the script, for the clone, of the role with the name replaced in all its values |
| RoleRename.SavedRenamedSame | services/backup-daemon/src/backup_and_restore.py:78-82 | these values are the saved ones if and only if none of them holds the name |
| RoleRename.ScriptRenamedExactly | services/backup-daemon/src/backup_and_restore.py:78-82 | the renamed script of a role is its script for the clone if and only if the keyspace's name is neither in a common part nor in a value |
| RoleReading.ReadRenamed | services/backup-daemon/src/backup_and_restore.py:78-83 | a renamed statement means the statement with all values renamed, or nothing that CQL accepts when a common part of its text holds the name |
| RoleReading.FileRenamed | services/backup-daemon/src/cassandra_client.py:83-91 | a renamed file is split into its renamed statements, one by one |
| RoleRestore.ClonedFilesRestore | services/backup-daemon/src/backup_and_restore.py:68-83 | run without error in a clone, the files restore every saved role with the name replaced in its name, hash and permissions, with its permissions on the new keyspace |
| RoleRestore.CloneRunsThrough | services/backup-daemon/src/backup_and_restore.py:68-83 | when nothing outside fails, they run without error if and only if no common part of the scripts holds the keyspace's name |
| CloneRoles.RenamedMakesTheSame | services/backup-daemon/src/backup_and_restore.py:68-83 | for roles that were not there, the renamed roles make the same cluster as the saved ones if and only if no value of any role holds the name |
| CloneRoles.CloneGivesRolesBack | services/backup-daemon/src/backup_and_restore.py:68-83 | when nothing outside fails, a clone gives all saved roles back as they were if and only if the keyspace's name is neither in a common part of the scripts nor in a value of a role |
| CloneRoles.RelatedRoleIsRenamed | services/backup-daemon/src/os_utils.py:60-65 | the whole script of a role ks_app of the keyspace ks becomes, in a clone db, that of a role db_app |
| CloneRoles.StopsWithOwnName | services/backup-daemon/src/backup_remote.py:185-186 | when the statement that sets the hash holds the keyspace's name, a clone creates the first role with its own name as the password and stops there |
| CloneRoles.HashIsInEveryScript | services/backup-daemon/src/backup_remote.py:186 | a keyspace named hash is such a case |
| Restore.RunEffect | services/backup-daemon/src/backup_and_restore.py:145-228 | a completed run has the effect of its events; an aborted one asked for a prefix of them |
| Restore.RestoreTable | services/backup-daemon/src/backup_and_restore.py:85-123 | drop in place, create and load one table, nothing without a schema, up to the first failure |
| Restore.RestoreTables | services/backup-daemon/src/backup_and_restore.py:219-222 | the snapshots of one archive in order |
| Restore.OpenKeyspace | services/backup-daemon/src/backup_and_restore.py:164-214 | what comes before the tables: the metadata file is read, the keyspace opened, roles restored |
| Restore.OpenInPlace | services/backup-daemon/src/backup_and_restore.py:176-188 | in place: the metadata entry, the drop of a whole keyspace, its schema and creation, on the first host only |
| Restore.OpenClone | services/backup-daemon/src/backup_and_restore.py:190-210 | in a clone: schema and creation for every host, and the drop of all tables for the first |
| Restore.RestoreHost | services/backup-daemon/src/backup_and_restore.py:154-228 | one archive and the shared flag; an archive without schema is skipped |
| Restore.RestoreKeyspace | services/backup-daemon/src/backup_and_restore.py:153-228 | all archives of a keyspace in order, cut off at the first failure |
| Restore.DumpsLoad | services/backup-daemon/src/backup_and_restore.py:109-123 | loading tables never drops a keyspace |
| RestoreOrder.CompletedRestoreOrder | services/backup-daemon/src/backup_and_restore.py:153-228 | the log of a completed restore, in place or into a clone, falls into one part for each host: roles once if they are asked for, then the host's dumps in order; no roles before their keyspace is created, and as many runs of roles as archives read |
| RestoreLaws.DropsInPlace | services/backup-daemon/src/backup_and_restore.py:176-188 | the keyspace is dropped at most once, exactly when roles are restored and some archive read holds the whole keyspace, and after a load exactly when such an archive comes late |
| RestoreLaws.AgreementIsSafe | services/backup-daemon/src/backup_and_restore.py:176-188 | with metadata in agreement no run, completed or not, drops what it loaded or drops twice |
| RestoreLaws.DisagreementDropsLoaded | services/backup-daemon/src/backup_and_restore.py:176-184 | two hosts that disagree: the second has the rows of the first dropped |
| RestoreLaws.CloneDropsNothing | services/backup-daemon/src/backup_and_restore.py:190-210 | a clone drops no keyspace |
| RestoreLaws.DumpPlaces | services/backup-daemon/src/backup_and_restore.py:109-123 | in place a dump replaces its table, in a clone it adds to it |
| RestoreLaws.OpeningEffect | services/backup-daemon/src/backup_and_restore.py:176-210 | the beginning of an archive empties the keyspace where something is dropped and leaves its tables alone otherwise, whatever the metadata |
| RestoreLaws.HostsEffect | services/backup-daemon/src/backup_and_restore.py:153-228 | the keyspace after all hosts, whatever their metadata say, is the dumps since the last drop placed in order on what was there or on nothing; other keyspaces are untouched |
| RestoreLaws.SurvivingAll | services/backup-daemon/src/backup_and_restore.py:176-188 | in a clone, without roles, and when the hosts agree, no dump is lost to a drop |
| RestoreLaws.SurvivingFromFirstWhole | services/backup-daemon/src/backup_and_restore.py:176-184 | otherwise exactly the dumps from the first host on that holds the whole keyspace survive |
| RestoreLaws.InPlaceHoldsLast | services/backup-daemon/src/backup_and_restore.py:113-115 | a table restored in place holds the rows of its last dump |
| RestoreLaws.CloneHoldsAll | services/backup-daemon/src/backup_and_restore.py:98-107 | a cloned table holds what was there and the rows of all dumps |
| RestoreLaws.InPlaceRoundTrip | services/backup-daemon/src/backup_and_restore.py:109-123 | a completed restore in place, whatever the metadata say, gives back the backup of a table if and only if its last surviving dump holds all its rows; a table none of whose dumps survives is gone |
| RestoreLaws.InPlaceLosesRows | services/backup-daemon/src/backup_and_restore.py:113-115 | two hosts with a row each: after a completed restore only the second row is there |
| RestoreLaws.CloneRoundTrip | services/backup-daemon/src/backup_and_restore.py:190-210 | after a completed restore a clone holds the union of all hosts' rows, on top of an existing keyspace only when roles are restored |
| RestoreLaws.RestoreAll | services/backup-daemon/src/backup_and_restore.py:140-229 | all requested keyspaces in order, up to the first without a backup or the first failure |
| RestoreOrder.AllBacked | services/backup-daemon/src/backup_and_restore.py:147-152 | all requests are reached if and only if each has a backup; otherwise those before the first without one |
| RestoreLaws.OneKeyspace | services/backup-daemon/src/backup_and_restore.py:145-228 | a keyspace ends as its own archives say, whatever was restored before |
| RestoreLaws.KeyspacesIndependent | services/backup-daemon/src/backup_and_restore.py:145-228 | with different targets each requested keyspace ends as if restored alone, and a keyspace that is no target stays as it was |
| RoundTrip.FinishedRun | services/backup-daemon/src/backup_remote.py:260-301 | what a completed run of the backup leaves of a host in the vault: archives written after their schema and roles were saved, and the metadata file |
| RoundTrip.VaultFinds | services/backup-daemon/src/os_utils.py:71-85 | collecting a vault gives exactly one archive of a requested keyspace for each host, in the order of the hosts |
| RoundTrip.ArchiveHoldsRows | services/backup-daemon/src/backup_and_restore.py:216-222 | the dumps in an archive hold exactly the host's rows of the requested tables; stubs, another keyspace's included, add nothing |
| RoundTrip.ArchivesHoldRows | services/backup-daemon/src/backup_and_restore.py:147-159 | the archives of all hosts together hold exactly the rows of all hosts |
| RoundTrip.BackupThenClone | services/backup-daemon/src/backup_and_restore.py:140-229 | backup on every host and a completed restore into a clone: every table holds exactly the union of the hosts' rows, on top of an existing keyspace only when roles are restored |
| RoundTrip.BackupThenRestore | services/backup-daemon/src/backup_and_restore.py:140-229 | backup on every host and a completed restore in place: a table comes back exactly if and only if the dump read last holds all its rows |
| RoundTrip.ExtractedIsOpened | services/backup-daemon/src/backup_and_restore.py:257-267 | on the host that made it, the archive and the metadata entry of a requested keyspace are found by their names |
| RoundTrip.VaultOpens | services/backup-daemon/src/backup_and_restore.py:147-162 | what a restore finds of a requested keyspace in the vault is the archive of each host, in the order of the hosts |
| ClusterRestore.WholeRestore | services/backup-daemon/src/backup_and_restore.py:140-229 | backup on all hosts, collection in a vault and a completed restore of many keyspaces: every table of each has the rows of the whole cluster, in a clone always, in place if and only if the dump read last holds them all; a keyspace that is no target stays as it was |
| Completion.CalmRestoreCompletes | services/backup-daemon/src/backup_and_restore.py:153-228 | when nothing outside fails, the restore of a keyspace completes if and only if every archive that is read has the metadata file and, unless the keyspace is already open in place, its entry, the schema and a name |
| Completion.CalmRestoreAllCompletes | services/backup-daemon/src/backup_and_restore.py:145-228 | and the restore of many keyspaces if and only if this holds for each of them |
| Completion.UnopenedChangesLittle | services/backup-daemon/src/backup_and_restore.py:162-192 | a restore whose first archive lacks what it needs stops, and has changed nothing, except that in place with roles a keyspace that was backed up whole is gone |
| ClusterRestore.SchemaIsFound | services/backup-daemon/src/backup_and_restore.py:171-172 | without a clash the keyspace's schema lies in the keyspace's own directory |
| ClusterRestore.BackupRestores | services/backup-daemon/src/backup_and_restore.py:140-229 | after the backup of all hosts, a restore during which nothing outside fails completes if and only if it has a name to restore under and each archive whose schema is asked for, in place of a whole keyspace only the first, begins with a directory of its keyspace |
| ClusterRestore.CompletesInAnyOrder | services/backup-daemon/src/backup_and_restore.py:171-188 | it completes whatever the order in which directories are found if and only if those archives hold exactly the directories of their keyspace |
| ClusterRestore.ClashNeverRestores | services/backup-daemon/src/backup_remote.py:284-285 | a host with a clash that a completed backup may leave: no restore of the keyspace completes, and in place with roles it is gone |
| ClusterRestore.HiddenSchemaDropsKeyspace | services/backup-daemon/src/backup_and_restore.py:178-188 | after the backup of a whole keyspace whose first archive begins with another keyspace's directory, a restore in place with roles drops the keyspace and then stops |

## Left out

- Restore.OpenKeyspace: running the role scripts is one event that leaves keyspaces alone; what the scripts do to roles is in `RoleScripts` and `RoleRestore`.
- RoleRestore.RestoreRoles: the name that is replaced is a plain one, without signs of the regular expression language; the empty name is left out. The same replacement in schema files, and that of the table identifier, is not modelled.
- PodKeys.CompletedStepInstalls: the shell of a pod is modelled for the five commands only, and for public keys without a single quote.
- RoundTrip.BackupThenClone: the rows of a host are those of its table directories at the time of the backup; the binary files and their loading are not modelled. The files of a host in the vault are in the order of the requests.
- BackupRun.FindSnapshotDirs: of the directories between a table and its snapshot only the fact that they are above it is used.
- Cassandra.Cluster.Execute: a name, password or hash with a single quote is refused between quotes; that CQL reads two quotes in a row as one is not modelled.
- DbAdmin.CreateDatabase: reserved words of CQL are accepted as names; what name preparation makes of a classifier is a parameter, because its package is not part of this model.
- DbUsers.CreateRoles: the branch for an error of `CreateUser` that continues with the next request is not reachable, because generated names always match the pattern, and is not modelled. A truncated list of roles, which the source takes as complete, is not modelled.
- SuperUsers.Access.Reconcile: the rotation of credentials is an old and a new password; the package that decides on it is not part of this model.
- Topology.GetActiveReplicas: the counts of a schema are not negative in the numbering, the rollout and the plan; what a negative one does to the list of active replicas is in `Topology.CountedReplicas`.
- ArchiveNames.FindHostArchives: directory listings are sequences of names; the order in which the file system gives them is arbitrary.
- Environment lists, node selectors, tolerations, labels and probes of the pod template, and the reaper's environment that grows with each replica: object construction.
- Restoring single tables: the check of the requested tables is called with too few arguments, and a request by tables never matches a backup's keyspace.
- The retry loop of a query, the three attempts to open a session and error texts: they would only add easy members.
- `Stream` as a type (its filter overwrites the list it holds): its loops appear where they are used.
- Requests to the adapter that run at the same time, and a second operator.
- Settings and metadata updates, HTTP handlers, parsing of the environment, logging and metrics.
- Generation of keys, passwords, hashes and UUIDs: opaque parameters. The drivers, `nodetool`, `tar`, `ssh` and `sstableloader` appear only as the statements, operations and events that a caller sends.
- White space beyond ASCII when scripts are stripped.
