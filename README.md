# Taskory task collaboration core, in Dafny

This project models the core of Taskory, a multi-tenant task tracker. Organizations hold projects, projects hold tasks, and collaborators comment on tasks and attach files to them. It also proves properties of that model. The core has three parts:

- **Backend services.** The Laravel services and controllers:
  - the task list query, bulk reordering, task creation, and the field-by-field update that writes the audit trail and mails a new assignee;
  - the per-task activity feed and comment posting with `@name` mentions;
  - organization listing and the invitation workflow (invite, re-invite, accept);
  - project listing, creation and membership;
  - first-time setup and the default task statuses;
  - the project dashboard, activity and attachment listings.
- **Activity side panel.** The browser panel's activity sentence, its tag stripping and its page-by-page loading.
- **Filter bar.** The task filter bar, which keeps its filters in the page's query string.

The database is a `class Database` (schema.dfy). It holds every table as a sequence of rows in primary-key order and a shared key counter, `serial`. The services become methods on it. Each method names the tables it may change in a field-granular `modifies` clause, so every other table is provably untouched. Queries are functions over the tables. Sorting (`orderBy`, `latest`, `sortBy`) uses one stable insertion sort, `Sorting.SortBy`, with lemmas for sortedness, permutation and stability.

Timestamps are ISO-8601 text ordered lexicographically. For canonical ISO text that order is the chronological one.

Several inputs are parameters of the model, not computed by it:

- the request time (`now()`);
- the token `Str::random(32)` would mint;
- the acting user (`Auth::id()`);
- the storage path a file was saved under;
- the application's public asset root.

A sent mail is a record appended to `db.mails`.

Some points of what the code does, which the model follows:

- **New task position.** It is one past the highest position over the whole project, subtasks included. It is not computed per parent.
- **Mail failures.** They are not caught anywhere in the code, so a failed mail is not a modelled outcome.
- **Reorder timestamps.** The reorder `update` also stamps `updated_at`.
- **Priority fallback.** The `'None'` fallback for an old priority cannot be reached, because the column is `NOT NULL`. A request that sets it to null makes the save fail.
- **Dashboard task.** Its `whereHas` already drops rows without a task, so the dashboard's `task: null` case cannot occur.
- **Subtasks.** The task panel creates a subtask by sending `parent_id` (frontend/components/task/TaskDetailSidebar.tsx:499), but `parent_id` is not fillable, so `Task::create` drops it and the new task is top level (`TaskService.NewTaskFields`).
- **Side panel `updated` branch.** It matches no row the backend writes. Update rows are shown as `performed action: <Label>_updated`.

## Model

| member | source | states |
|---|---|---|
| TaskService.Select | backend/app/Services/TaskService.php:14-52 | a row is kept exactly as often as the table holds it when it is top level and meets every supplied filter, and never otherwise |
| TaskService.GetTasks | backend/app/Services/TaskService.php:10-57 | the list holds exactly the matching rows with their multiplicity, in ascending position order |
| TaskService.GetTasksMembers | backend/app/Services/TaskService.php:14-52 | a task is listed iff it is a row of the table that has no parent and satisfies every filter |
| TaskService.ReorderTasks | backend/app/Services/TaskService.php:60-65 | the task table becomes the result of applying the pairs one after another; only `tasks` changes |
| TaskService.ReorderedRow | backend/app/Services/TaskService.php:60-65 | after a reorder a listed task holds the position of the last pair naming it and a fresh `updated_at`; an unlisted task is unchanged; no other field changes |
| TaskService.ReorderPlacesEach | backend/app/Services/TaskService.php:60-65 | with distinct ids in the request, every listed task ends at its requested position |
| TaskService.FillKeepsGuardedColumns | backend/app/Models/Task.php:15-28 | mass assignment never changes `parent_id` or `actual_hours`, which are not fillable |
| TaskService.Fill | backend/app/Models/Task.php:15-28 | `fill` never changes the key or the timestamps, and an empty request changes nothing |
| TaskService.LogActivity | backend/app/Services/TaskService.php:186-194 | appends exactly one audit row with the acting user, action and values, and no creation time |
| TaskService.MaxPosition | backend/app/Services/TaskService.php:70 | absent iff the project has no task; otherwise an upper bound on the project's positions that some task of the project attains |
| TaskService.NextPositionAfterAll | backend/app/Services/TaskService.php:69-72 | the automatic position is 0 in an empty project, otherwise greater than every position in the project and one more than some task's |
| TaskService.NewTaskFields | backend/app/Services/TaskService.php:67-77 | the created row has the requested project (an integer or a decimal string) and title and no parent; it takes the requested position, else the automatic one; it takes the requested creator, else the acting user |
| TaskService.IdTextIsId | backend/app/Http/Controllers/TaskController.php:26-56 | an id sent as its decimal string is a valid id and is stored exactly as the integer would be |
| TaskService.StringProjectCreate | frontend/components/task/TaskDetailSidebar.tsx:229-233 | the create form's request, its project sent as a string, is accepted and names that project |
| TaskService.StringStatusUpdate | frontend/components/task/TaskDetailSidebar.tsx:163-171 | a status sent as a string is stored; the status column is dirty exactly when it differs from the current one, and no other tracked column is |
| TaskService.InsertTask | backend/app/Services/TaskService.php:77-79 | appends the task and one `created` audit row whose new value is `{title}` |
| TaskService.CreateTask | backend/app/Services/TaskService.php:67-82 | success inserts exactly the new row and one `created` row with old value null and new value `{title}`; a null priority makes the write fail with nothing changed |
| TaskService.ChangesExactlyTheDirtyFields | backend/app/Services/TaskService.php:86-159 | exactly one change per tracked field whose column is dirty and none for the others, in the order Status, Priority, Assignee, Due Date, Title, Parent Task, Estimated Hours, Actual Hours |
| TaskService.TrackedListsAll | backend/app/Services/TaskService.php:91-159 | every tracked field is checked, at its place in the order |
| TaskService.DisplayValues | backend/app/Services/TaskService.php:91-119 | status and assignee changes record names, with `None` / `Unassigned` for a null or dangling reference; priority changes record the capitalised value |
| TaskService.UpdateNeverLogsGuardedFields | backend/app/Services/TaskService.php:137-159 | an update through `fill` never records a Parent Task or an Actual Hours change |
| TaskService.ChangeRows | backend/app/Services/TaskService.php:164-171 | one audit row per recorded change |
| TaskService.AssignmentNoticeSpec | backend/app/Services/TaskService.php:174-181 | at most one assignment mail; exactly one iff the assignee changed to a non-null user who exists and has an email; it goes to that address |
| TaskService.SetRow | backend/app/Services/TaskService.php:161 | the table keeps its length and keys |
| TaskService.LogChanges | backend/app/Services/TaskService.php:164-171 | the loop appends the audit rows of the changes in order, one key each |
| TaskService.SaveTask | backend/app/Services/TaskService.php:161 | the task's row is overwritten; only `tasks` changes |
| TaskService.NotifyAssignee | backend/app/Services/TaskService.php:174-181 | appends exactly the assignment notice |
| TaskService.ApplyUpdate | backend/app/Services/TaskService.php:161-181 | saves the row, appends the change rows, then the assignment notice |
| TaskService.UpdateTask | backend/app/Services/TaskService.php:84-184 | the saved row is the filled task; the audit rows are those of the diff against the original; the mail is the assignment notice; a null priority fails with nothing changed |
| TaskFeed.CommentItems | backend/app/Services/TaskService.php:204-212 | every item is a comment item |
| TaskFeed.ActivityItems | backend/app/Services/TaskService.php:215-250 | every item is an activity item |
| TaskFeed.FileItems | backend/app/Services/TaskService.php:253-263 | every item is a file item |
| TaskFeed.CommentItemsSpec | backend/app/Services/TaskService.php:204-212 | an item is listed iff some comment of the task gives it: id `c_<key>`, author, content and time |
| TaskFeed.FileItemsSpec | backend/app/Services/TaskService.php:253-263 | an item is listed iff some attachment owned by the task gives it: id `f_<key>`, uploader, `Uploaded file: <name>`, time, and the public URL under `storage/` |
| TaskFeed.ActivityContent | backend/app/Services/TaskService.php:221-237 | every activity text starts with `Changed `; a legacy `status_changed` row reads exactly `Changed Status` |
| TaskFeed.Feed | backend/app/Services/TaskService.php:265-268 | the feed is a permutation of comments, then non-`comment` audit rows, then files |
| TaskFeed.FeedSorted | backend/app/Services/TaskService.php:268 | the feed runs in ascending `created_at` order |
| TaskFeed.FeedTiesKeepConcatOrder | backend/app/Services/TaskService.php:265-268 | items with equal times keep their concatenation order: comments, then audit rows, then files |
| TaskFeed.ActivityItemsSpec | backend/app/Services/TaskService.php:215-250 | the activity part holds exactly the task's non-`comment` rows, each stamped with its own time or else `now` |
| TaskFeed.EntryIdsDistinct | backend/app/Services/TaskService.php:204-263 | the `c_`, `a_` and `f_` prefixes keep ids of different kinds apart |
| TaskFeed.ActivityIdsDistinct | backend/app/Services/TaskService.php:240 | audit rows with different keys get different feed ids |
| TaskFeed.PrefixedIdInjective | backend/app/Services/TaskService.php:204-263 | a prefixed id determines its prefix and key |
| TaskFeed.UpdateRowContent | backend/app/Services/TaskService.php:221-232 | an update row reads `Changed <Label> from '<old>' to '<new>'` |
| TaskFeed.LabelHasNoUnderscore | backend/app/Services/TaskService.php:95-155 | no field label contains `_`, so removing `_updated` gives the label back |
| TaskComments.WordPrefix | backend/app/Services/TaskService.php:283 | the longest run of word characters at the start of the text |
| TaskComments.Mentions | backend/app/Services/TaskService.php:283 | every capture is a non-empty run of `[A-Za-z0-9_]` |
| TaskComments.NameWithOtherCharNeverMentioned | backend/app/Services/TaskService.php:283-287 | a name containing a space or other non-word character is never captured |
| TaskComments.MentionsTake | backend/app/Services/TaskService.php:283 | `@` followed by a maximal word run captures that run, and the scan resumes after it |
| TaskComments.MentionsSkip | backend/app/Services/TaskService.php:283 | text without `@` captures nothing |
| TaskComments.MentionsExample | backend/app/Services/TaskService.php:283 | `@a please check @b, @a` captures a, b, a |
| TaskComments.NamedUsersSpec | backend/app/Services/TaskService.php:287 | the query returns each user whose name is asked for, as often as the table holds them, and nobody else |
| TaskComments.NamedUsersSameNames | backend/app/Services/TaskService.php:285-287 | the query depends only on the set of names asked for |
| TaskComments.MentionMailsSpec | backend/app/Services/TaskService.php:289-295 | a mail goes to exactly those listed users who have an email and are not the author |
| TaskComments.MentionRecipients | backend/app/Services/TaskService.php:283-295 | the recipients are the users named by a mention who have an email and are not the author; repeated mentions add none |
| TaskComments.MentionedUserMailedOnce | backend/app/Services/TaskService.php:283-295 | with distinct emails, a mentioned user who may be mailed gets exactly one mail, however often the name is repeated |
| TaskComments.MentionMailsOnce | backend/app/Services/TaskService.php:289-295 | the mail loop sends exactly one mail to each listed user who may be mailed, when emails are distinct |
| TaskComments.NamedUsersKeepsEmailsUnique | backend/app/Services/TaskService.php:287 | the query keeps the table's distinct emails distinct |
| TaskComments.UploadRows | backend/app/Services/TaskService.php:298-309 | one task-owned attachment per file, in order under consecutive keys, with the uploader, the file's name, path, size and type, and the upload time |
| TaskComments.InsertComment | backend/app/Services/TaskService.php:273-279 | appends the comment and one `comment` audit row carrying the content |
| TaskComments.SendMentionMails | backend/app/Services/TaskService.php:289-295 | the loop appends the mention mails in user order |
| TaskComments.StoreUploads | backend/app/Services/TaskService.php:298-309 | the loop appends one attachment per file, in order |
| TaskComments.NotifyMentioned | backend/app/Services/TaskService.php:283-296 | appends the mails to the users named by the distinct mentions |
| TaskComments.CreateComment | backend/app/Services/TaskService.php:271-312 | stores the content (or `''`), one `comment` row, the mention mails and the upload rows |
| Common.Distinct | backend/app/Services/TaskService.php:285 | keeps exactly the values of the input, each once |
| Common.DistinctKeepsFirstOrder | backend/app/Services/TaskService.php:285 | the kept values come in the order of their first occurrences |
| OrganizationService.OwnedOrganizations | backend/app/Services/OrganizationService.php:12 | exactly the organizations the user owns |
| OrganizationService.MemberOrganizations | backend/app/Services/OrganizationService.php:13 | exactly the organizations the pivot lists the user in |
| OrganizationService.UniqueById | backend/app/Services/OrganizationService.php:15 | keeps one row for every key of the input and no key twice |
| OrganizationService.GetUserOrganizations | backend/app/Services/OrganizationService.php:10-16 | no organization key occurs twice |
| OrganizationService.GetUserOrganizationsSpec | backend/app/Services/OrganizationService.php:10-16 | an organization is listed iff the user owns it or belongs to it |
| OrganizationService.FindInvitation | backend/app/Services/OrganizationService.php:64-65 | finds the row for (organization, email) or shows there is none |
| OrganizationService.FindByToken | backend/app/Services/OrganizationService.php:81 | finds a row holding the token, or shows none holds it |
| OrganizationService.UpsertKeepsKeys | backend/database/migrations/2026_01_04_144000_create_invitations_table.php:14-21 | the upsert keeps (organization, email) and the token unique, and keys below the counter |
| OrganizationService.UpsertOneRowPerPair | backend/app/Services/OrganizationService.php:64-71 | after an invitation the pair has exactly one row, holding the new token, role `member` and the requested project |
| OrganizationService.ReinviteRetiresOldToken | backend/app/Services/OrganizationService.php:64-71 | re-inviting makes the old token find nothing |
| OrganizationService.UpsertLeavesOtherPairs | backend/app/Services/OrganizationService.php:64-71 | every other pair's row keeps its place and content |
| OrganizationService.WithoutInvitation | backend/app/Services/OrganizationService.php:108 | exactly the rows under other keys remain |
| OrganizationService.WithoutKeepsKeys | backend/app/Services/OrganizationService.php:108 | deleting keeps the unique indexes |
| OrganizationService.AcceptedTokenIsSpent | backend/app/Services/OrganizationService.php:81-108 | after acceptance the token finds nothing |
| OrganizationService.MembersAreNeverInvited | backend/app/Services/OrganizationService.php:40-54 | a member's email is added to a project of the organization they are not in, or refused; with no project, it is refused as already a member |
| OrganizationService.InvitationsOnlyForOutsiders | backend/app/Services/OrganizationService.php:40-61 | an invitation is sent only to a non-member's email, and only for no project or a project of the organization |
| OrganizationService.AttachToProject | backend/app/Services/OrganizationService.php:49 | appends one `member` row for the user in the project |
| OrganizationService.SendInvite | backend/app/Services/OrganizationService.php:64-76 | upserts the row, mails its token to the address, and uses a new key only when the pair had no row |
| OrganizationService.InviteUser | backend/app/Services/OrganizationService.php:37-77 | a refusal changes nothing and carries the code's message; a direct add appends one project `member` row, with no invitation and no mail; otherwise the upsert and one mail |
| OrganizationService.AcceptJoinsOrganization | backend/app/Services/OrganizationService.php:92-94 | the user ends in the organization; an existing membership is unchanged, otherwise the invitation's role is granted |
| OrganizationService.AcceptJoinsProject | backend/app/Services/OrganizationService.php:97-105 | if the project still belongs to the organization, the user ends in it, and is not added twice |
| OrganizationService.Join | backend/app/Services/OrganizationService.php:92-108 | writes the two pivot joins and deletes the invitation |
| OrganizationService.AcceptInvitation | backend/app/Services/OrganizationService.php:79-111 | an unknown token and a different email both fail with nothing changed; success joins, deletes the invitation and answers with the organization |
| ProjectService.ProjectsOf | backend/app/Services/ProjectService.php:12 | exactly the organization's projects |
| ProjectService.ProjectsOfMember | backend/app/Services/ProjectService.php:21-22 | exactly the projects of organizations the pivot lists the user in |
| ProjectService.GetProjects | backend/app/Services/ProjectService.php:9-23 | a filter gives that organization's projects; no filter and no user gives none; otherwise the projects of the user's pivot organizations |
| ProjectService.OwnershipAloneShowsNothing | backend/app/Services/ProjectService.php:21-22 | owning an organization without a pivot row shows none of its projects |
| ProjectService.InsertProject | backend/app/Services/ProjectService.php:27 | appends the project under the next key |
| ProjectService.CreateProject | backend/app/Services/ProjectService.php:25-39 | the project, its four default statuses, and the signed-in creator as `admin` |
| ProjectService.AddUserCheck | backend/app/Services/ProjectService.php:54-75 | an accepted user has the email, is not in the project and is in its organization; an unknown email is refused first |
| ProjectService.AddUserRefusals | backend/app/Services/ProjectService.php:64-75 | a project member is refused as such, and a known non-member of the organization with the organization's name |
| ProjectService.AddUserToProject | backend/app/Services/ProjectService.php:52-80 | a refusal changes nothing; success appends one `member` row and the user is then in both project and organization |
| Setup.InsertOrganization | backend/app/Http/Controllers/SetupController.php:28-34 | appends the organization and its `owner` pivot row |
| Setup.InsertFirstProject | backend/app/Http/Controllers/SetupController.php:40-47 | appends the project and its default statuses |
| Setup.CreateOrganization | backend/app/Http/Controllers/SetupController.php:13-55 | a user who belongs to or owns an organization is refused with nothing changed; otherwise they own the new organization as `owner`; an `active` project with default statuses exists iff a truthy name was given; afterwards setup refuses again |
| DefaultTaskStatusSeeder.SeededRowsShape | backend/database/seeders/DefaultTaskStatusSeeder.php:15-50 | four statuses To Do, In Progress, In Review, Completed at positions 0..3 in the given project; exactly one default (To Do) and one completed (Completed) |
| DefaultTaskStatusSeeder.Run | backend/database/seeders/DefaultTaskStatusSeeder.php:13-51 | a null or 0 project id changes nothing; otherwise exactly the seeded rows are appended |
| ProjectDashboard.FormatAction | backend/app/Http/Controllers/ProjectDashboardController.php:37-63 | every phrase ends with the quoted task title, or `a task` |
| ProjectDashboard.Index | backend/app/Http/Controllers/ProjectDashboardController.php:14-32 | at most ten entries |
| ProjectDashboard.IndexIsNewestHead | backend/app/Http/Controllers/ProjectDashboardController.php:14-32 | the entries are the first min(10, n) rows of the project's newest-first listing, each with its task present, newest first |
| ProjectDashboard.TrackedLabelPhrases | backend/app/Http/Controllers/ProjectDashboardController.php:41-61 | every label the update writes has its own phrase, except `Parent Task_updated`, which falls to `updated` |
| ProjectActivity.ProjectActivities | backend/app/Http/Controllers/ProjectActivityController.php:13-15 | exactly the rows whose task is in the project |
| ProjectActivity.ProjectActivitiesCount | backend/app/Http/Controllers/ProjectActivityController.php:13-15 | each row is kept exactly as often as the table holds it when its task is in the project, otherwise never |
| ProjectActivity.Listing | backend/app/Http/Controllers/ProjectActivityController.php:13-17 | a permutation of the project's rows |
| ProjectActivity.ListingSpec | backend/app/Http/Controllers/ProjectActivityController.php:13-17 | a row is listed iff its task is in the project, as often as the table holds it; the list runs newest first, rows without a time last |
| ProjectActivity.PageSlice | backend/app/Http/Controllers/ProjectActivityController.php:18 | page k holds positions 50(k-1) up to 50k of the list, at most 50 rows |
| ProjectActivity.Paginate | backend/app/Http/Controllers/ProjectActivityController.php:18 | at most 50 rows; a next page exists iff rows remain after this one |
| ProjectActivity.LastPageAfter | backend/app/Http/Controllers/ProjectActivityController.php:18 | the last page number exceeds k iff rows remain after page k |
| ProjectActivity.PagesConcatenate | backend/app/Http/Controllers/ProjectActivityController.php:17-18 | pages 1..n in order are the first 50n rows |
| ProjectActivity.PagesCoverList | backend/app/Http/Controllers/ProjectActivityController.php:17-18 | once a page has no successor, the pages so far are the whole list |
| ProjectActivity.Index | backend/app/Http/Controllers/ProjectActivityController.php:11-21 | the page number defaults to 1; at most 50 rows, each a row of the project; a next page exists iff the project has more rows than the pages so far hold |
| ProjectAttachments.TaskIds | backend/app/Http/Controllers/ProjectAttachmentController.php:16 | exactly the keys of the project's tasks |
| ProjectAttachments.MatchingCount | backend/app/Http/Controllers/ProjectAttachmentController.php:18-27 | a row is kept as often as the table holds it when it meets the condition, never otherwise |
| ProjectAttachments.Index | backend/app/Http/Controllers/ProjectAttachmentController.php:11-33 | a permutation of the matching rows |
| ProjectAttachments.IndexSpec | backend/app/Http/Controllers/ProjectAttachmentController.php:11-33 | each attachment of the project or of a task of the project appears as often as stored, nothing else appears, newest first |
| ActivitySidebar.UpdatedKeyPrecedence | frontend/components/project/ProjectActivitySidebar.tsx:167-178 | for `updated` with both values present, `status_id` beats `priority` beats `assignee_id`, and an object with none of them gives `updated the task`; a missing old or new value gives `updated the task` |
| ActivitySidebar.UpdateRowsReadAsPerformed | frontend/components/project/ProjectActivitySidebar.tsx:162-185 | rows the backend writes on update read `performed action: <Label>_updated` |
| ActivitySidebar.StripTags | frontend/components/project/ProjectActivitySidebar.tsx:188-190 | the result has no `<` and is no longer than the input |
| ActivitySidebar.StripTagsKeepsPlainText | frontend/components/project/ProjectActivitySidebar.tsx:189 | text without `<` is unchanged |
| ActivitySidebar.StripTagsIdempotent | frontend/components/project/ProjectActivitySidebar.tsx:189 | stripping twice is stripping once |
| ActivitySidebar.StripTagsKeepsPlainPrefix | frontend/components/project/ProjectActivitySidebar.tsx:189 | plain text before the rest is kept as is |
| ActivitySidebar.StripTagsDropsTag | frontend/components/project/ProjectActivitySidebar.tsx:189 | a whole `<...>` tag is removed |
| ActivitySidebar.FormatActivityMessage | frontend/components/project/ProjectActivitySidebar.tsx:162-186 | `created`, `comment` and `deleted` have their sentence, `updated` one of its four, any other action reads `performed action: <action>` |
| ActivitySidebar.ActivityPager.Open | frontend/components/project/ProjectActivitySidebar.tsx:28-31 | opening requests page 1 and resets the counter |
| ActivitySidebar.ActivityPager.Close | frontend/components/project/ProjectActivitySidebar.tsx:32-34 | closing empties the list |
| ActivitySidebar.ActivityPager.LoadMore | frontend/components/project/ProjectActivitySidebar.tsx:55-61 | acts only when not loading and more remain, and then advances the page by exactly one |
| ActivitySidebar.ActivityPager.Receive | frontend/components/project/ProjectActivitySidebar.tsx:41-47 | page 1 replaces the list, a later page extends it; `hasMore` follows `next_page_url` |
| ActivitySidebar.ActivityPager.Fail | frontend/components/project/ProjectActivitySidebar.tsx:48-52 | a failed request only clears the loading flag |
| ActivitySidebar.ReceivedPagesArePrefix | frontend/components/project/ProjectActivitySidebar.tsx:37-61 | after pages 1..n the panel holds the first 50n rows of the listing, and all of them once no next page is announced |
| FilterBar.WithoutValues | frontend/components/task/TasksFilterBar.tsx:78 | `delete` empties that name and leaves every other name's values |
| FilterBar.SetEntryValues | frontend/components/task/TasksFilterBar.tsx:99 | `set` leaves exactly the one value under that name and every other name's values |
| FilterBar.NumberOfText | frontend/components/task/TasksFilterBar.tsx:43-79 | an id written with `toString` reads back as itself through `Number` |
| FilterBar.Toggle | frontend/components/task/TasksFilterBar.tsx:72-92 | the new parameters are the old ones without the list, followed by the toggled distinct selection, one pair per id |
| FilterBar.AppendAll | frontend/components/task/TasksFilterBar.tsx:79 | the `forEach` appends one `key=id` pair per id, in order, after the existing pairs |
| FilterBar.HandleAssigneeToggle | frontend/components/task/TasksFilterBar.tsx:72-81 | the toggle on `assignee_ids[]` |
| FilterBar.HandleStatusToggle | frontend/components/task/TasksFilterBar.tsx:83-92 | the toggle on `status_ids[]` |
| FilterBar.ToggleReadBack | frontend/components/task/TasksFilterBar.tsx:72-92 | the written list reads back as the distinct selection with the id toggled |
| FilterBar.ToggleFlips | frontend/components/task/TasksFilterBar.tsx:73-75 | a selected id is removed and an absent one added at the end; every other id keeps its status |
| FilterBar.ToggleTwiceRestores | frontend/components/task/TasksFilterBar.tsx:72-92 | toggling an id twice restores the selection as a set |
| FilterBar.ToggleWritesNoDuplicates | frontend/components/task/TasksFilterBar.tsx:72-92 | the written list never repeats a value |
| FilterBar.ToggleKeepsOtherKeys | frontend/components/task/TasksFilterBar.tsx:77-90 | no other parameter changes |
| FilterBar.DateParamKeyMatchesServer | frontend/components/task/TasksFilterBar.tsx:96 | every date input writes the key `getTasks` reads that bound from |
| FilterBar.HandleDateChange | frontend/components/task/TasksFilterBar.tsx:94-104 | an empty value deletes the key, any other value sets it |
| FilterBar.DateChangeEffect | frontend/components/task/TasksFilterBar.tsx:98-102 | afterwards the key holds exactly the value, or nothing when cleared; no other parameter changes |
| FilterBar.HasFiltersIff | frontend/components/task/TasksFilterBar.tsx:111-115 | filters show iff an id list is non-empty or some date bound is non-empty |
| FilterBar.HasFilters | frontend/components/task/TasksFilterBar.tsx:111-115 | filters never show for empty parameters |
| FilterBar.DateValueShowsFilters | frontend/components/task/TasksFilterBar.tsx:111-115 | a date input holding a value makes `hasFilters` true |
| FilterBar.ListedDateIsSet | frontend/components/task/TasksFilterBar.tsx:111-115 | each date parameter `hasFilters` tests is the one some date input reads |
| FilterBar.FiltersShow | frontend/components/task/TasksFilterBar.tsx:72-115 | adding an id or entering a date shows the filters; the bare path `clearFilters` pushes shows none |

## Left out

- Mail classes and templates: a mail is a record of its recipient and subject entity, not its rendered text.
- File storage (`store`, `asset`): the stored path and the public asset root are parameters.
- Authentication, sessions and request validation: the acting user is a parameter. The task controllers' validation rules are the precondition `TaskService.WellTyped` (plus a project and a title on creation). An id passes its `exists` rule as an integer or as a decimal string, and both are modelled. The framework's conversion of an empty string to null happens before the service and is taken as done.
- TaskService.Fill: a numeric id string with leading zeros (`"04"`) is read as its number, so it is clean when the task already holds that id. Eloquent compares it with `strcmp` and marks it dirty, which would record a change whose old and new names are equal.
- TaskService.WellTyped: `position` and the hour fields have no validation rule. Only an integer, a digit string or null for `position`, and a string or null for the hours, are modelled. No caller sends anything else.
- Keys: one shared counter, `serial`, hands out the primary keys of every table. The database has one auto-increment sequence per table. Contracts that name a key (`old(db.serial)`, `firstId + i`) fix the key the model hands out, not the exact number the database would.
- Mail failures: the code does not catch them, and a failed mail is not modelled.
- `Str::random(32)` and `now()`: both are parameters. The token is required to be unused by any other invitation, as the unique index demands.
- OrganizationService.InviteUser: the project id is `Option<Id>`, so a project id of 0 or below is not modelled. PHP treats 0 as no project.
- OrganizationService.AcceptInvitation: emails compare exactly. The database collation could compare them case-insensitively.
- ProjectService.AddUserToProject: requires the project's organization to exist, as its foreign key guarantees.
- TaskFeed.FileItems: the file URL is built from the asset-root parameter, not from application configuration.
- `json_encode`: only the escapes of `"`, `\` and `/` are modelled. Unicode escaping is not.
- SQL tie order: rows with equal sort keys may come back in any order. The model keeps table order (a stable sort), and contracts state only sortedness and permutation, except for the PHP `sortBy` of the feed, which is stable.
- ActivitySidebar.FormatActivityMessage: JSON values are modelled with integer numbers only. `Object.keys` of a string or an array (decimal indices) is taken as empty, since no field name is a decimal index.
- ActivitySidebar: the React effects, the scroll handler's geometry and the asynchronous interleaving of requests are not modelled. Each response is applied as one step.
- FilterBar.ToNumber: only strings of decimal digits (and the empty string, which is 0) parse as numbers. Signs, whitespace, decimals and other forms that `Number` accepts read as `NaN` here.
- FilterBar: the query-string serialisation round trip (`toString` and percent-encoding) is not modelled. Copying a `URLSearchParams` copies its pairs.
- The filter bar's popups, user and status fetching, and the rest of the page UI are not modelled.
