# Exam management back end: paper storage, seeding and user management

This project models three services of the exam-management back end in
Dafny and proves properties of the model:

- **`FileService`** (module `PaperWorkflows`, paths in `FilePaths`). It
  stores an already-encrypted exam paper as a file under a fixed upload
  directory and records it with a metadata row and one paper-course link
  per course. It also updates the record, deletes record and file, and
  reads a file back for decryption. File names are checked against `..`,
  `/` and `\`. The path is resolved and normalised the way
  `java.nio.file.Path` does on Unix, and must stay under the upload
  directory.
- **`DatabaseSeeder`** (module `DatabaseSeeder`). At start-up it gets or
  creates 17 permissions and 6 roles by name, and binds permissions to
  roles where the pair is not bound yet. It then creates the users `admin`
  and `coordinator` when their usernames are free.
- **`UserManagementServices`** (module `UserManagementServices`). It saves
  users, with or without role names, and appends user-role rows, without
  a duplicate check. It lists users with their role names, and deletes a
  user together with its user-role rows. It updates a user's fields, and
  can replace the user's role rows wholesale.

The tables the last two share live in `AccessControl`. They are the
permission, role, role-permission, user and user-role repositories, each
a sequence in save order. One identifier counter (`nextId`) hands out the
permission, role and user ids; the two join tables carry no id of their
own. `AccessControl.Store` is the mutable database; its `Contents()` are a
`Tables` value. Every Java method that changes state is a Dafny `method`
on the store or on `FileService`. Each method on the store is proved equal
to a function of the old state
(`db.Contents() == SeedTables(old(db.Contents()), encode)`), and the lemmas
state what the source promises about those functions. The `FileService`
methods instead state their new fields case by case, in source order, in
terms of functions such as `StorageTarget` and `CourseLinks`.

Password hashing is the function parameter `encode`. The decryption service
is the function parameter `decryptForUser`. An I/O failure of the file
system is a boolean parameter (`writeFails`, `deleteFails`, `readFails`).
Whether the upload directory exists as a directory is the constant
`uploadDir` of `FileService`; nothing in the service creates it.

Some consequences of the code that the model keeps:

- **Seeding is not all-or-nothing.** `seedData` applies each repository
  call at once and swallows any exception, so a failure leaves the calls
  before it in place.
- **Duplicate user-role pairs are allowed.** `assignRoleToUser` appends the
  row even when the same pair is already there (`AssignRoleRepeats`).
- **A paper can end up with fewer courses than asked.** `saveEncryptedPaper`
  saves the paper first and then links courses one by one, so an unknown
  course id fails after the paper and the earlier links are saved.
- **Deleting a user ignores that user's papers.** `deleteUser` removes the
  user's role rows and the user, and never looks at the papers that
  reference it.

## Model

| member | source | states |
|---|---|---|
| AccessControl.PermissionNamed | Backend/src/main/java/com/example/examManagementBackend/configurations/DatabaseSeeder.java:102 | `findByPermissionName`: finds a row with that name exactly when one exists |
| AccessControl.RoleNamed | Backend/src/main/java/com/example/examManagementBackend/configurations/DatabaseSeeder.java:107 | `findByRoleName`: finds a row with that name exactly when one exists |
| AccessControl.RoleWithId | Backend/src/main/java/com/example/examManagementBackend/userManagement/userManagementServices/UserManagementServices.java:66 | `findById` on roles: finds a row with that id exactly when one exists |
| AccessControl.UsernameTaken | Backend/src/main/java/com/example/examManagementBackend/configurations/DatabaseSeeder.java:120 | `existsByUsername`: true exactly when some user row has that username |
| AccessControl.UserIndex | Backend/src/main/java/com/example/examManagementBackend/userManagement/userManagementServices/UserManagementServices.java:65 | `findById` on users: the position of a row with that id, none exactly when no row has it |
| DatabaseSeeder.GetOrCreatePermission | Backend/src/main/java/com/example/examManagementBackend/configurations/DatabaseSeeder.java:101-104 | afterwards the name finds the returned row. Names stay unique, no row is lost, and only the permission table and the id counter change |
| DatabaseSeeder.GetOrCreateRole | Backend/src/main/java/com/example/examManagementBackend/configurations/DatabaseSeeder.java:106-109 | the same get-or-create-by-name behaviour for roles |
| DatabaseSeeder.GetOrCreatePermissionCases | Backend/src/main/java/com/example/examManagementBackend/configurations/DatabaseSeeder.java:101-104 | an existing name returns its row and changes nothing; a new name appends exactly one row, with the given description and category, under the next id |
| DatabaseSeeder.GetOrCreateRoleCases | Backend/src/main/java/com/example/examManagementBackend/configurations/DatabaseSeeder.java:106-109 | an existing role name returns its row and changes nothing; a new one appends exactly one role under the next id |
| DatabaseSeeder.CreatePermissions | Backend/src/main/java/com/example/examManagementBackend/configurations/DatabaseSeeder.java:38-60 | the `createPermission` calls in order: one returned row per call, each in the table under its own name; no row lost |
| DatabaseSeeder.CreateRoles | Backend/src/main/java/com/example/examManagementBackend/configurations/DatabaseSeeder.java:64-69 | the `createRole` calls in order, with the same guarantees for roles |
| DatabaseSeeder.CreatePermissionsExisting | Backend/src/main/java/com/example/examManagementBackend/configurations/DatabaseSeeder.java:38-60 | when every name already exists, the calls change nothing |
| DatabaseSeeder.CreateRolesExisting | Backend/src/main/java/com/example/examManagementBackend/configurations/DatabaseSeeder.java:64-69 | when every role name already exists, the calls change nothing |
| DatabaseSeeder.CreatePermissionsFound | Backend/src/main/java/com/example/examManagementBackend/configurations/DatabaseSeeder.java:38-60 | when every name already exists, the calls change nothing and call `k` returns the row its name finds |
| DatabaseSeeder.CreateRolesFound | Backend/src/main/java/com/example/examManagementBackend/configurations/DatabaseSeeder.java:64-69 | the same for the role calls |
| DatabaseSeeder.BindPermission | Backend/src/main/java/com/example/examManagementBackend/configurations/DatabaseSeeder.java:111-116 | afterwards the pair is bound and no pair is bound twice. An already-bound pair changes nothing, and no other table changes |
| DatabaseSeeder.BindPermissionAddsOnly | Backend/src/main/java/com/example/examManagementBackend/configurations/DatabaseSeeder.java:111-116 | the only binding that can appear is the given pair |
| DatabaseSeeder.BindAll | Backend/src/main/java/com/example/examManagementBackend/configurations/DatabaseSeeder.java:90-99 | binding a role to a list of permissions one by one binds every one of them and keeps every earlier binding |
| DatabaseSeeder.BindAllHeld | Backend/src/main/java/com/example/examManagementBackend/configurations/DatabaseSeeder.java:90-99 | when every pair is already bound, the calls change nothing |
| DatabaseSeeder.BindAllAddsOnly | Backend/src/main/java/com/example/examManagementBackend/configurations/DatabaseSeeder.java:90-99 | the only bindings that can appear are the role with the listed permissions |
| DatabaseSeeder.BindPermissions | Backend/src/main/java/com/example/examManagementBackend/configurations/DatabaseSeeder.java:90-99 | the eight-permission overload binds the role to all eight, keeps the table free of duplicates and every earlier binding |
| DatabaseSeeder.BindPermissionsIsBindAll | Backend/src/main/java/com/example/examManagementBackend/configurations/DatabaseSeeder.java:90-99 | the overload on eight consecutive rows is the same as binding that slice one by one |
| DatabaseSeeder.UserCreated | Backend/src/main/java/com/example/examManagementBackend/configurations/DatabaseSeeder.java:118-143 | afterwards the username is taken and no user is lost; only the user, user-role and id tables change; a given role never fails |
| DatabaseSeeder.UserCreatedCases | Backend/src/main/java/com/example/examManagementBackend/configurations/DatabaseSeeder.java:118-143 | taken username: nothing changes. Otherwise exactly one user is added, with name fields "Admin"/"User", status 0, active and the encoded password. Then exactly one user-role row for the role follows, or `InvalidRole` after the user is already saved |
| DatabaseSeeder.SeedGrantsBind | Backend/src/main/java/com/example/examManagementBackend/configurations/DatabaseSeeder.java:74-78 | after the five assignment calls ADMIN holds `p1`..`p17` and ACADEMY_COORDINATOR holds `p4` and `p9` |
| DatabaseSeeder.SeedGrantsAddsOnly | Backend/src/main/java/com/example/examManagementBackend/configurations/DatabaseSeeder.java:74-78 | the assignment calls add no binding but those |
| DatabaseSeeder.SeedGrantsHeld | Backend/src/main/java/com/example/examManagementBackend/configurations/DatabaseSeeder.java:74-78 | when all those bindings exist, the calls change nothing |
| DatabaseSeeder.SeedGrants | Backend/src/main/java/com/example/examManagementBackend/configurations/DatabaseSeeder.java:74-78 | the five grant calls change only the role-permission table and lose no binding |
| DatabaseSeeder.UserCreatedReferential | Backend/src/main/java/com/example/examManagementBackend/configurations/DatabaseSeeder.java:118-143 | `createUser` with a saved role keeps every user-role row referencing a saved user and role |
| DatabaseSeeder.SeedUsersReferential | Backend/src/main/java/com/example/examManagementBackend/configurations/DatabaseSeeder.java:82-83 | the two user calls keep those references valid |
| DatabaseSeeder.SeedUsers | Backend/src/main/java/com/example/examManagementBackend/configurations/DatabaseSeeder.java:82-83 | afterwards `admin` and `coordinator` are taken usernames, no user is lost, and only the user-side tables change |
| DatabaseSeeder.SeedNames | Backend/src/main/java/com/example/examManagementBackend/configurations/DatabaseSeeder.java:41-69 | `p4` is READ_USER, `p9` is READ_ROLE, the first role is ADMIN and the last ACADEMY_COORDINATOR |
| DatabaseSeeder.SeedTables | Backend/src/main/java/com/example/examManagementBackend/configurations/DatabaseSeeder.java:35-88 | `seedData` as its calls in order: valid tables that keep every permission, role, binding and user they held |
| DatabaseSeeder.SeedTablesReferential | Backend/src/main/java/com/example/examManagementBackend/configurations/DatabaseSeeder.java:35-88 | seeding keeps the user-role foreign keys, since its users are bound to roles it has just found or created |
| DatabaseSeeder.SeedFreshReferential | Backend/src/main/java/com/example/examManagementBackend/configurations/DatabaseSeeder.java:35-88 | after seeding a fresh database every user-role row references a saved user and role |
| DatabaseSeeder.SeedTablesRows | Backend/src/main/java/com/example/examManagementBackend/configurations/DatabaseSeeder.java:36-83 | the seeded tables hold the returned permission and role rows, the grants on them, and both usernames |
| DatabaseSeeder.SeedTablesSeeds | Backend/src/main/java/com/example/examManagementBackend/configurations/DatabaseSeeder.java:36-83 | from any valid tables, seeding establishes every seeded role, ADMIN bound to all 17 seeded permissions, ACADEMY_COORDINATOR bound to READ_USER and READ_ROLE, and both users |
| DatabaseSeeder.SeedTablesAddsOnly | Backend/src/main/java/com/example/examManagementBackend/configurations/DatabaseSeeder.java:74-78 | every binding after seeding was there before, or binds ADMIN to a seeded permission or ACADEMY_COORDINATOR to READ_USER or READ_ROLE. So PAPER_CREATOR, PAPER_MODERATOR, FIRST_MAKER and SECOND_MAKER gain none |
| DatabaseSeeder.SeededGrantsHeld | Backend/src/main/java/com/example/examManagementBackend/configurations/DatabaseSeeder.java:74-78 | on seeded tables, the five assignment calls given the rows the seeded names find change nothing |
| DatabaseSeeder.PermissionsOnSeeded | Backend/src/main/java/com/example/examManagementBackend/configurations/DatabaseSeeder.java:38-60 | on seeded tables the seventeen permission calls change nothing and return the rows the seeded names find |
| DatabaseSeeder.RolesOnSeeded | Backend/src/main/java/com/example/examManagementBackend/configurations/DatabaseSeeder.java:64-69 | on seeded tables the six role calls change nothing; the first returns the ADMIN row and the last the ACADEMY_COORDINATOR row |
| DatabaseSeeder.SeedGrantsOnSeeded | Backend/src/main/java/com/example/examManagementBackend/configurations/DatabaseSeeder.java:38-78 | on seeded tables the permission, role and assignment calls of `seedData` change nothing |
| DatabaseSeeder.SeedUsersHeld | Backend/src/main/java/com/example/examManagementBackend/configurations/DatabaseSeeder.java:82-83 | with both usernames taken, the two user calls change nothing |
| DatabaseSeeder.SeedTablesFixpoint | Backend/src/main/java/com/example/examManagementBackend/configurations/DatabaseSeeder.java:101-123 | seeding tables that are already seeded changes nothing at all |
| DatabaseSeeder.SeedTablesIdempotent | Backend/src/main/java/com/example/examManagementBackend/configurations/DatabaseSeeder.java:101-123 | seeding twice leaves the same permissions, roles, bindings, users and user-role rows as seeding once |
| DatabaseSeeder.SeedTablesEnds | Backend/src/main/java/com/example/examManagementBackend/configurations/DatabaseSeeder.java:33-88 | seeding makes any valid tables seeded, and leaves seeded tables exactly as they are |
| DatabaseSeeder.SeedTablesHoldsSeedBindings | Backend/src/main/java/com/example/examManagementBackend/configurations/DatabaseSeeder.java:74-78 | after seeding any valid tables every seed binding is present |
| DatabaseSeeder.SeededHoldsSeedBindings | Backend/src/main/java/com/example/examManagementBackend/configurations/DatabaseSeeder.java:74-78 | seeded tables hold every seed binding |
| DatabaseSeeder.SeedFreshBindings | Backend/src/main/java/com/example/examManagementBackend/configurations/DatabaseSeeder.java:74-78 | on a fresh database the bindings after seeding are exactly the seed bindings: ADMIN with all 17 permissions, ACADEMY_COORDINATOR with exactly READ_USER and READ_ROLE |
| DatabaseSeeder.CreatePermission | Backend/src/main/java/com/example/examManagementBackend/configurations/DatabaseSeeder.java:101-104 | the store and the returned row are those of `GetOrCreatePermission` |
| DatabaseSeeder.CreateRole | Backend/src/main/java/com/example/examManagementBackend/configurations/DatabaseSeeder.java:106-109 | the store and the returned row are those of `GetOrCreateRole` |
| DatabaseSeeder.AssignPermissionToRole | Backend/src/main/java/com/example/examManagementBackend/configurations/DatabaseSeeder.java:111-116 | the store becomes `BindPermission` of the old one |
| DatabaseSeeder.AssignPermissionsToRole | Backend/src/main/java/com/example/examManagementBackend/configurations/DatabaseSeeder.java:90-99 | the eight single calls leave the store as `BindPermissions` of the old one |
| DatabaseSeeder.CreateUser | Backend/src/main/java/com/example/examManagementBackend/configurations/DatabaseSeeder.java:118-143 | the store and the outcome are those of `UserCreated` |
| DatabaseSeeder.CreatePermissionsIn | Backend/src/main/java/com/example/examManagementBackend/configurations/DatabaseSeeder.java:38-60 | the loop over the permission calls leaves the store and rows of `CreatePermissions` |
| DatabaseSeeder.CreateRolesIn | Backend/src/main/java/com/example/examManagementBackend/configurations/DatabaseSeeder.java:64-69 | the loop over the role calls leaves the store and rows of `CreateRoles` |
| DatabaseSeeder.AssignSeedGrants | Backend/src/main/java/com/example/examManagementBackend/configurations/DatabaseSeeder.java:74-78 | the five assignment calls leave the store as `SeedGrants` of the old one |
| DatabaseSeeder.CreateSeedUsers | Backend/src/main/java/com/example/examManagementBackend/configurations/DatabaseSeeder.java:82-83 | the two user calls leave the store as `SeedUsers` of the old one |
| DatabaseSeeder.SeedData | Backend/src/main/java/com/example/examManagementBackend/configurations/DatabaseSeeder.java:33-88 | `seedData` leaves `SeedTables` of the old store, the store valid and seeded, and an already seeded store unchanged; it reports no failure |
| FilePaths.ParseToString | Backend/src/main/java/com/example/examManagementBackend/paperWorkflows/service/FileService.java:125 | the path string returned for a stored file parses back to the same path, as `Paths.get` in the delete and the read relies on |
| FilePaths.ParseWellFormed | Backend/src/main/java/com/example/examManagementBackend/paperWorkflows/service/FileService.java:120 | `Paths.get` only yields non-empty names free of '/' and NUL |
| PaperWorkflows.UploadDirParses | Backend/src/main/java/com/example/examManagementBackend/paperWorkflows/service/FileService.java:44 | `UPLOAD_DIR` is the relative path src/main/resources/Encrypted_Papers |
| PaperWorkflows.UploadDirPrints | Backend/src/main/java/com/example/examManagementBackend/paperWorkflows/service/FileService.java:44 | `UPLOAD_DIR` is the printed upload root followed by one separator |
| PaperWorkflows.ParentNameIsUnsafe | Backend/src/main/java/com/example/examManagementBackend/paperWorkflows/service/FileService.java:114-116 | the name `..` fails the name check |
| PaperWorkflows.ResolveUploadPath | Backend/src/main/java/com/example/examManagementBackend/paperWorkflows/service/FileService.java:112-123 | a name holding `..`, `/` or `\` is rejected, and a NUL fails the path parse. Any other name resolves to the upload directory followed by that name (or to the directory itself for "" and "."), which starts with the upload root |
| PaperWorkflows.SafeNameResolves | Backend/src/main/java/com/example/examManagementBackend/paperWorkflows/service/FileService.java:120-123 | a name passing the check parses, and normalises to a single name inside the upload directory, so the containment check never rejects it |
| PaperWorkflows.SafeFileName | Backend/src/main/java/com/example/examManagementBackend/paperWorkflows/service/FileService.java:114 | a name passes exactly when it holds neither '/' nor '\' and no two adjacent dots |
| PaperWorkflows.StorageTarget | Backend/src/main/java/com/example/examManagementBackend/paperWorkflows/service/FileService.java:112-128 | a rejected name fails as the checks say. A write lands on a well-formed path under the upload directory: directly inside it under the given name when the directory exists, and at the directory's own path (names "" and ".") when it does not. Apart from other I/O failures each accepted name is written in exactly one of these cases |
| PaperWorkflows.RootNamesTargetRoot | Backend/src/main/java/com/example/examManagementBackend/paperWorkflows/service/FileService.java:114-125 | "" and "." pass both checks and denote the upload directory itself: without the directory they write a regular file at its path, with it the write fails |
| PaperWorkflows.CourseLinks | Backend/src/main/java/com/example/examManagementBackend/paperWorkflows/service/FileService.java:79-87 | the loop saves at most one link per course id; which links they are is stated by `CourseLinksRows` |
| PaperWorkflows.CourseLinksRows | Backend/src/main/java/com/example/examManagementBackend/paperWorkflows/service/FileService.java:79-87 | link `i` joins the paper to `courseIds[i]`, which is a course, and the loop stops exactly at the first id that is not one |
| PaperWorkflows.CourseLinksAppend | Backend/src/main/java/com/example/examManagementBackend/paperWorkflows/service/FileService.java:79-87 | after a prefix of known ids, the loop continues with the rest |
| PaperWorkflows.FileService.GetEncryptedPaperById | Backend/src/main/java/com/example/examManagementBackend/paperWorkflows/service/FileService.java:131-133 | the record with that id, or null exactly when there is none |
| PaperWorkflows.FileService.SaveFileToStorage | Backend/src/main/java/com/example/examManagementBackend/paperWorkflows/service/FileService.java:112-129 | a rejected name or failed write changes nothing. Otherwise the file is written where `StorageTarget` says and that path's string is returned, which parses back to the path; the files keep agreeing with the directory's existence |
| PaperWorkflows.FileService.SaveEncryptedPaper | Backend/src/main/java/com/example/examManagementBackend/paperWorkflows/service/FileService.java:46-88 | missing course ids, an unknown academic year or a null name fail with no change. A missing creator or moderator fails with the file written and no record. Otherwise one record is saved under a fresh id, with the stored path, then links up to the first unknown course |
| PaperWorkflows.FileService.SaveRecord | Backend/src/main/java/com/example/examManagementBackend/paperWorkflows/service/FileService.java:64-87 | a missing creator, then a missing moderator, fails with no record. Otherwise one record is saved under a fresh id with the stored path, followed by the course links |
| PaperWorkflows.FileService.SavePaperCourses | Backend/src/main/java/com/example/examManagementBackend/paperWorkflows/service/FileService.java:79-87 | the course loop appends exactly `CourseLinks` and fails with the first unknown course id |
| PaperWorkflows.FileService.UpdateEncryptedPaper | Backend/src/main/java/com/example/examManagementBackend/paperWorkflows/service/FileService.java:90-107 | an absent paper fails. The name changes only to a non-null, non-empty one, and the remarks to any non-null value, empty included. Path, creator, moderator and year stay |
| PaperWorkflows.FileService.DeletePaperById | Backend/src/main/java/com/example/examManagementBackend/paperWorkflows/service/FileService.java:139-152 | an absent paper fails. A recorded path that does not parse, or a delete I/O failure, keeps the record and the file. Otherwise the file (if any; a missing one is no error) and then the record go |
| PaperWorkflows.FileService.DecryptFileForUser | Backend/src/main/java/com/example/examManagementBackend/paperWorkflows/service/FileService.java:161-171 | a bad path or failed or missing read fails; otherwise the result is what the decryption service makes of the file's contents. An `IOException` from the decryption is rethrown as the read failure, so none escapes |
| UserManagementServices.BindingsOf | Backend/src/main/java/com/example/examManagementBackend/userManagement/userManagementServices/UserManagementServices.java:114 | `findByUser`: exactly the user-role rows of that user |
| UserManagementServices.WithoutUser | Backend/src/main/java/com/example/examManagementBackend/userManagement/userManagementServices/UserManagementServices.java:114-115 | deleting a user's rows leaves exactly the rows of other users |
| UserManagementServices.WithoutUserKeepsOthers | Backend/src/main/java/com/example/examManagementBackend/userManagement/userManagementServices/UserManagementServices.java:114-115 | every other user keeps its rows, in order |
| UserManagementServices.RoleNameOf | Backend/src/main/java/com/example/examManagementBackend/userManagement/userManagementServices/UserManagementServices.java:87-93 | a row yields a role name exactly when its role is set and resolves |
| UserManagementServices.RoleBindings | Backend/src/main/java/com/example/examManagementBackend/userManagement/userManagementServices/UserManagementServices.java:51-58 | the role loop saves at most one row per name |
| UserManagementServices.RoleBindingsRows | Backend/src/main/java/com/example/examManagementBackend/userManagement/userManagementServices/UserManagementServices.java:51-58 | row `i` binds the user to the role `findByRoleName(names[i])` finds, and the loop stops exactly at a name no role has |
| UserManagementServices.RoleBindingsAppend | Backend/src/main/java/com/example/examManagementBackend/userManagement/userManagementServices/UserManagementServices.java:51-58 | after a prefix of known names, the loop continues with the rest |
| UserManagementServices.RoleNamesOfBindings | Backend/src/main/java/com/example/examManagementBackend/userManagement/userManagementServices/UserManagementServices.java:51-58 | the rows the loop saves read back, in the listing, as the names given, in order |
| UserManagementServices.RoleLoopBindsPrefix | Backend/src/main/java/com/example/examManagementBackend/userManagement/userManagementServices/UserManagementServices.java:51-58 | the loop leaves the longest prefix of known names. It succeeds exactly when all names are known, and otherwise throws for the first unknown one |
| UserManagementServices.RoleNames | Backend/src/main/java/com/example/examManagementBackend/userManagement/userManagementServices/UserManagementServices.java:86-94 | a name is listed exactly when one of the rows references a role of that name; rows without one are dropped, so there are at most as many names as rows |
| UserManagementServices.ViewOf | Backend/src/main/java/com/example/examManagementBackend/userManagement/userManagementServices/UserManagementServices.java:84-104 | the `UserDTO` of a user carries its id, username, email, first and last name, and exactly the names of the roles its own rows reference |
| UserManagementServices.GetAllUsersWithRoles | Backend/src/main/java/com/example/examManagementBackend/userManagement/userManagementServices/UserManagementServices.java:75-107 | one entry per user, in store order, with the user's id, username, email and names. Each entry lists the role names of the user's rows |
| UserManagementServices.Edited | Backend/src/main/java/com/example/examManagementBackend/userManagement/userManagementServices/UserManagementServices.java:124-131 | the setters overwrite username, email, first and last name. They replace the password by the encoded new one only when that is non-empty, and keep id, status and active flag |
| UserManagementServices.NewUser | Backend/src/main/java/com/example/examManagementBackend/userManagement/userManagementServices/UserManagementServices.java:28-29 | the new row has the form's username, email and names, status 0, the active flag set and the encoded password |
| UserManagementServices.UserSaved | Backend/src/main/java/com/example/examManagementBackend/userManagement/userManagementServices/UserManagementServices.java:27-32 | exactly one user is appended under a fresh id, with the form's fields, status 0, active and the encoded password. There is no username check, no user-role row, and no other table changes |
| UserManagementServices.UserSavedWithRoles | Backend/src/main/java/com/example/examManagementBackend/userManagement/userManagementServices/UserManagementServices.java:38-61 | the user is saved as by `saveUser`. It succeeds exactly when the role list is non-null and every name in it is a role |
| UserManagementServices.RoleAssigned | Backend/src/main/java/com/example/examManagementBackend/userManagement/userManagementServices/UserManagementServices.java:64-73 | succeeds exactly when user and role exist; a failure changes nothing; only the user-role table changes |
| UserManagementServices.AssignRoleRepeats | Backend/src/main/java/com/example/examManagementBackend/userManagement/userManagementServices/UserManagementServices.java:68-72 | a successful call adds one more copy of the (user, role) row even when it is already present |
| UserManagementServices.UserDeleted | Backend/src/main/java/com/example/examManagementBackend/userManagement/userManagementServices/UserManagementServices.java:110-120 | an absent user fails with no change. Afterwards the users are exactly the old ones with another id, and the user-role rows exactly the old rows of other users |
| UserManagementServices.UserUpdated | Backend/src/main/java/com/example/examManagementBackend/userManagement/userManagementServices/UserManagementServices.java:122-135 | an absent user fails with no change. Otherwise only that user's row is edited, and the user-role rows are untouched |
| UserManagementServices.UserUpdatedWithRoles | Backend/src/main/java/com/example/examManagementBackend/userManagement/userManagementServices/UserManagementServices.java:137-162 | an absent user fails with no change. It succeeds exactly when the user exists, the role list is non-null and every name is a role. Users change as by `updateUser` |
| UserManagementServices.SaveUserWithRolesViews | Backend/src/main/java/com/example/examManagementBackend/userManagement/userManagementServices/UserManagementServices.java:38-61 | earlier users list as before. The new user lists last, with the form's fields and the longest known prefix of its role names. A null list leaves no roles and throws after the user is saved; an unknown name throws after the earlier rows are saved |
| UserManagementServices.AssignRoleViews | Backend/src/main/java/com/example/examManagementBackend/userManagement/userManagementServices/UserManagementServices.java:64-73 | on success the user's role list gains the role's name at its end; every other user lists as before |
| UserManagementServices.DeleteUserViews | Backend/src/main/java/com/example/examManagementBackend/userManagement/userManagementServices/UserManagementServices.java:110-120 | on success the listing is the old one minus the user's entry, order kept; no entry has the deleted id |
| UserManagementServices.DeleteUserBindings | Backend/src/main/java/com/example/examManagementBackend/userManagement/userManagementServices/UserManagementServices.java:113-115 | afterwards no user-role row references the user, and every other user's rows are unchanged |
| UserManagementServices.UpdateUserViews | Backend/src/main/java/com/example/examManagementBackend/userManagement/userManagementServices/UserManagementServices.java:122-135 | on success the user lists with the new username, email and names and its old roles; every other user lists as before |
| UserManagementServices.UpdateUserWithRolesViews | Backend/src/main/java/com/example/examManagementBackend/userManagement/userManagementServices/UserManagementServices.java:137-162 | for an existing user, none of the old role names remain. The user lists exactly the longest known prefix of the new names, and a null list throws with no roles left. An unknown name throws after the old rows are deleted. Others list as before |
| UserManagementServices.SaveUserWithRolesReferential | Backend/src/main/java/com/example/examManagementBackend/userManagement/userManagementServices/UserManagementServices.java:27-61 | saving keeps every user-role row referencing a saved user and, when set, a saved role |
| UserManagementServices.AssignRoleReferential | Backend/src/main/java/com/example/examManagementBackend/userManagement/userManagementServices/UserManagementServices.java:64-73 | assigning a role keeps those references valid |
| UserManagementServices.DeleteUserReferential | Backend/src/main/java/com/example/examManagementBackend/userManagement/userManagementServices/UserManagementServices.java:110-120 | deleting a user with its rows leaves no row referencing a missing user |
| UserManagementServices.UpdateUserReferential | Backend/src/main/java/com/example/examManagementBackend/userManagement/userManagementServices/UserManagementServices.java:122-162 | both updates keep those references valid |
| UserManagementServices.SaveUser | Backend/src/main/java/com/example/examManagementBackend/userManagement/userManagementServices/UserManagementServices.java:27-32 | the store becomes `UserSaved` of the old one |
| UserManagementServices.SaveRoleBindings | Backend/src/main/java/com/example/examManagementBackend/userManagement/userManagementServices/UserManagementServices.java:51-58 | the loop appends exactly `RoleBindings` and throws for the first unknown name |
| UserManagementServices.SaveUserWithRoles | Backend/src/main/java/com/example/examManagementBackend/userManagement/userManagementServices/UserManagementServices.java:38-61 | the store and the outcome are those of `UserSavedWithRoles` |
| UserManagementServices.AssignRoleToUser | Backend/src/main/java/com/example/examManagementBackend/userManagement/userManagementServices/UserManagementServices.java:64-73 | the store and the outcome are those of `RoleAssigned` |
| UserManagementServices.DeleteUser | Backend/src/main/java/com/example/examManagementBackend/userManagement/userManagementServices/UserManagementServices.java:110-120 | the store and the outcome are those of `UserDeleted` |
| UserManagementServices.ApplyForm | Backend/src/main/java/com/example/examManagementBackend/userManagement/userManagementServices/UserManagementServices.java:124-131 | the setters replace the row by its `Edited` form |
| UserManagementServices.UpdateUser | Backend/src/main/java/com/example/examManagementBackend/userManagement/userManagementServices/UserManagementServices.java:122-135 | the store and the outcome are those of `UserUpdated` |
| UserManagementServices.UpdateUserWithRoles | Backend/src/main/java/com/example/examManagementBackend/userManagement/userManagementServices/UserManagementServices.java:137-162 | the store and the outcome are those of `UserUpdatedWithRoles` |

## Left out

- Encryption itself: `uploadAndEncryptFileForUsers` (FileService.java:155-159) only hands the bytes to the encryption service, whose code is not part of this model; the decryption service is an uninterpreted parameter, and no round trip or secrecy is claimed for either.
- `getAllEncryptedPapers` (FileService.java:135-137) is a bare `findAll` whose order the repository does not fix; the model offers the `papers` map itself.
- Byte and character conversions: `getBytes()` on write and the UTF-8 decoding on read are taken as identity; file contents are strings.
- Password hashing: `passwordEncoder.encode` is the function parameter `encode`.
- File-system failures are boolean parameters rather than causes; the parent of the upload directory (`src/main/resources`) is taken to exist; symbolic links, absolute upload directories and the Windows path syntax are not modelled.
- Nulls: only the values the code tests or dereferences are `Option`s (file name, remarks, course ids, the seeder's role, the role list). Other strings are never null, and neither is any id (`creatorId`, `moderatorId`, `academicYearId`, a course id, `paperId`, `userId`, `roleId`): a null id, for which `findById` throws, is not modelled, including the cases where that throw would come after the file is written or the record saved. In `updateUser` an empty password also stands for a null one, since the code treats both alike. A null password passed to `saveUser` or `saveUserWithRoles` is not modelled.
- Return messages ("success", "User deleted successfully", …) are constants of no interest; the methods return an outcome instead.
- JPA: transactions, lazy loading, cascades and entity identity are not modelled. Every repository call changes the tables at once. `getUserRoles()` is taken to be the user's rows of the join table in save order. Rows in other tables that reference a deleted user, or the paper-course links of a deleted paper, are left as they are, as the code leaves them.
- Identifiers: one counter hands out permission, role and user ids; papers have their own counter.
- The console output of `seedData` and `createUser` (System.out/System.err, the stack trace) is not modelled. Within the model no call made by `seedData` can fail, so its catch block is never reached.
- `DatabaseSeeder.SeedData`: the seventeen `createPermission` and six `createRole` calls are modelled as two loops over tables of their arguments, in the same order. The eight-permission overload is modelled as `BindAll` on eight consecutive rows, which `BindPermissionsIsBindAll` proves equal.
