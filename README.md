# Taskflow core, modelled and verified in Dafny

Taskflow is a task tracker. An Express/MongoDB server stores tasks, each with
an embedded checklist, and users who are admins or members. A React client
lets admins create, assign and monitor tasks and lets members work through
their checklists. This project models the decision logic of both halves:

- **Server** (`task_controller.dfy`, `user_model.dfy`, `auth_controller.dfy`,
  `user_controller.dfy`, `report_controller.dfy`, `upload_middleware.dfy`).
  - `TaskStore` and `UserStore` are in-memory stand-ins for the two
    collections. Their methods are the handlers that write: create, merge
    update, delete, and the checklist toggle that recomputes `progress`.
  - The handlers that only read are functions of the stored sequence: the
    role-scoped task list and its status summary, the dashboards with their
    due-today window and five newest tasks, the report counts, the
    per-assignee grouping, login and profile reads.
  - The image upload filter and the stored file name are functions too.
- **Browser** (every other file).
  - The validators and helpers of `helper.js` and `uploadimage.js`.
  - The list editors: the checklist editor, the assignee picker, the
    attachment picker and the dropdown.
  - What the task and team pages show: counts, filters, progress and
    due-date labels.
  - The sign-up and create-task forms, as objects holding form data and
    error messages.
  - The session held in `Usercontext.jsx`, with localStorage as a map.
  - The route guard and the route table.

Some things are parameters rather than part of the model:

- **Clock:** `now` is a millisecond timestamp.
- **External libraries:** password hashing, password comparison and token
  signing are function parameters.
- **Network:** the outcome of every HTTP request from the browser is an
  argument.

JavaScript numbers are whole numbers here. `Math.round(c / n * 100)` is
round-half-up of the exact quotient, `(200c + n) div (2n)`, which can
differ by one from the floating-point result (see "Left out").

`common.dfy` holds what both halves share:

- the optional values `Option` and `Response`;
- the string operations the code relies on (`trim`, `includes`,
  `toLowerCase`);
- filtering and counting with their subsequence lemmas;
- integer percentages and decimal rendering;
- the form error objects.

`sorting.dfy` holds the stable sort that `Array.prototype.sort` and
Mongo's `sort` stand for.

## Model

| member | source | states |
|---|---|---|
| Common.OrElse | frontend/Task-manager/src/context/Usercontext.jsx:37 | the fallback `a or b` of an optional string: a when it is truthy, else b |
| Common.ToLower | frontend/Task-manager/src/utils/helper.js:255 | `toLowerCase`: same length, each character lowered (ASCII letters only) |
| Common.ToUpper | frontend/Task-manager/src/utils/helper.js:43 | `toUpperCase`: same length, each character raised (ASCII letters only) |
| Common.Trim | frontend/Task-manager/src/component/Inputs/TodoListinput.jsx:15 | `trim`: a slice of the string with every character before and after it white space, and the slice empty or starting and ending with a character that is not |
| Common.TrimEmptyIffAllSpace | frontend/Task-manager/src/component/Inputs/TodoListinput.jsx:15 | `!s.trim()` holds exactly when s is all white space |
| Common.ContainsIff | frontend/Task-manager/src/component/Inputs/SelectUser.jsx:32 | `s.includes(t)` holds exactly when t occurs at some index of s |
| Common.Filter | frontend/Task-manager/src/utils/helper.js:255 | `filter`: no longer than the input, only elements satisfying p, and every such element kept |
| Common.FilterIsSubsequence | frontend/Task-manager/src/utils/helper.js:255 | `filter` keeps the input order |
| Common.FilterMultiplicity | frontend/Task-manager/src/utils/helper.js:255 | `filter` keeps each satisfying value exactly as often as it occurs and drops every other value |
| Common.FilterSubMultiset | frontend/Task-manager/src/utils/helper.js:255 | the filtered values, counted with multiplicity, are contained in the input |
| Common.RoundHalfUp | backend/controllers/taskController.js:151 | `Math.round(num / den)`: the integer nearest num/den, halves rounded up |
| Common.PercentBounds | backend/controllers/taskController.js:149-152 | a rounded share of at most the whole is within 0..100, 0 for none and 100 for all |
| Common.NatToString | backend/middleware/uploadmiddleware.js:14 | `${n}`: a non-empty string of decimal digits |
| Common.DecimalRoundTrip | backend/middleware/uploadmiddleware.js:14 | the rendered digits read back as the number |
| Common.FindFirst | backend/controllers/taskController.js:138-144 | the lookups by id or email: the first position whose element matches, or none exactly when no element matches |
| Common.Take | backend/controllers/taskController.js:196 | `slice(0, k)` / `limit(k)`: a prefix of length min(k, n) |
| Common.RemoveAt | frontend/Task-manager/src/component/Inputs/TodoListinput.jsx:47 | `filter((_, i) => i !== index)`: exactly the element at the index removed, everything when the index is outside the list |
| Common.ClearError | frontend/Task-manager/src/pages/Auth/SignUp.jsx:34-36 | a set message of the field is blanked; no key is added or dropped and every other message stays |
| Sorting.SortByKey | frontend/Task-manager/src/utils/helper.js:224-244 | the sorted list is a permutation of the input |
| Sorting.SortByKeySorted | frontend/Task-manager/src/utils/helper.js:224-244 | the sorted list is in ascending key order |
| Sorting.InsertKeepsEqualKeyOrder | frontend/Task-manager/src/utils/helper.js:224-244 | an inserted element goes in front of every element with its key, and the others keep their order |
| Sorting.SortByKeyStable | frontend/Task-manager/src/utils/helper.js:224-244 | the sort is stable: the elements with any one key keep their input order |
| Sorting.SortedPrefix | backend/controllers/taskController.js:195-196 | the first n after sorting are n of the elements, in key order, and none of the others has a smaller key |
| TaskController.CompletedCountBound | backend/controllers/taskController.js:149 | the completed count of a checklist never exceeds its length |
| TaskController.ChecklistProgressBounds | backend/controllers/taskController.js:149-152 | recomputed progress lies in 0..100 and is 0 for an empty checklist |
| TaskController.ItemIndex | backend/controllers/taskController.js:143 | the found position holds the first item with that id; absent exactly when no item has it |
| TaskController.ToggleItem | backend/controllers/taskController.js:143-146 | fails with 404 "Checklist item not found" exactly when no item has the id |
| TaskController.ToggleChangesOnlyThatItem | backend/controllers/taskController.js:143-152 | a toggle sets the flag of the first matching item and leaves every other item, and every field but checklist and progress, unchanged |
| TaskController.ToggleRecomputesProgress | backend/controllers/taskController.js:149-152 | after a toggle the stored progress is the rounded percentage of completed items (0 when empty) and lies in 0..100 |
| TaskController.ToggleBackRestores | backend/controllers/taskController.js:143-152 | toggling an item and then back to its old flag restores a consistent task exactly |
| TaskController.ItemIndexSameIds | backend/controllers/taskController.js:143 | the item lookup depends only on the ids of the checklist |
| TaskController.StoredChecklist | backend/controllers/taskController.js:16 | the stored checklist keeps every body item in order with its text; a missing flag is false |
| TaskController.NewTask | backend/controllers/taskController.js:4-23 | creation fails exactly when title or description is missing or the priority is not low/medium/high; a created task belongs to the caller, is pending, with progress 0 |
| TaskController.CreateIgnoresClientStatusAndCreator | backend/controllers/taskController.js:6-17 | a status or createdBy sent by the client has no effect on the created task |
| TaskController.CreateCanDesynchronizeProgress | backend/controllers/taskController.js:8-17 | a body with one item already completed creates a task with progress 0, which disagrees with its checklist |
| TaskController.CreateConsistentWithoutCompleted | backend/controllers/taskController.js:8-17 | a body with no completed item creates a task whose progress agrees with its checklist |
| TaskController.CreateTakesBodyFields | backend/controllers/taskController.js:6-17 | the created task carries the body's title, description, due date, assignees, attachments and checklist texts |
| TaskController.MergePatch | backend/controllers/taskController.js:112 | a merge update never changes the id or the creation time; MergePatchFields gives every other field |
| TaskController.MergePatchFields | backend/controllers/taskController.js:112 | field by field, a field present in the body takes the body's value and an absent field keeps the stored value; id and creation time are kept |
| TaskController.MergePatchIdentityAndIdempotent | backend/controllers/taskController.js:112 | an empty body changes nothing, and applying the same body twice equals applying it once |
| TaskController.UpdateKeepsProgress | backend/controllers/taskController.js:112 | a body without progress keeps the stored progress, whatever else it replaces |
| TaskController.UpdateCanDesynchronizeProgress | backend/controllers/taskController.js:112 | a body that replaces only the checklist leaves a consistent task inconsistent |
| TaskController.TaskIndex | backend/controllers/taskController.js:109-110 | the found position holds the first task with the id; absent exactly when none has it |
| TaskController.GetTaskById | backend/controllers/taskController.js:92-104 | found exactly when a stored task has the id, and then that task; otherwise 404 "Task not found" |
| TaskController.RemoveAtIsFilter | backend/controllers/taskController.js:165-168 | with distinct ids, removing the found task removes exactly the tasks with that id |
| TaskController.Annotate | backend/controllers/taskController.js:47-55 | every listed task is kept in order with its count of completed checklist items |
| TaskController.Summary | backend/controllers/taskController.js:58-84 | `all` is the size of the scope and each of pending, in-progress and completed is the number of scope tasks with that status, so at most `all`; SummaryAddsUp adds that the three together stay within `all` |
| TaskController.GetTasks | backend/controllers/taskController.js:26-85 | the status summary is the summary of the caller's role scope, ignoring the status filter, and the list is never longer than its `all` count; GetTasksScope gives the entries |
| TaskController.GetTasksScope | backend/controllers/taskController.js:28-55 | a non-admin's list holds only tasks assigned to them; an admin's list holds every task passing the status filter; every entry matches the filter and carries its completed count |
| TaskController.SummaryIgnoresStatusFilter | backend/controllers/taskController.js:58-84 | the status summary does not depend on the status filter, counts the caller's scope, and its three counts add up to at most `all` |
| TaskController.SummaryAddsUp | backend/controllers/taskController.js:58-75 | the three status counts add up to at most the total, exactly the total when every status is one of the three |
| TaskController.RecentTasks | backend/controllers/taskController.js:194-197 | `.sort({ createdAt: -1 }).limit(5)` yields min(5, n) tasks; RecentTasksAreFromScope, RecentTasksNewestFirst and RecentTasksNewest give which ones and their order |
| TaskController.RecentTasksAreFromScope | backend/controllers/taskController.js:194-197 | the recent list holds min(5, size) tasks, all drawn from the scope |
| TaskController.RecentTasksNewestFirst | backend/controllers/taskController.js:195 | the recent list is ordered newest first |
| TaskController.RecentTasksNewest | backend/controllers/taskController.js:194-196 | no task left out of the recent list is newer than a task in it |
| TaskController.GetDashboardData | backend/controllers/taskController.js:176-210 | the admin dashboard counts the whole store: the total is every task, each status count is the number of tasks with that status, the due-today count is the number due in the window, and min(5, total) recent tasks are listed |
| TaskController.GetUserDashboardData | backend/controllers/taskController.js:213-250 | the total is the number of tasks assigned to the caller, each status and due-today count is the number of the caller's tasks with that status or due in the window, and min(5, total) recent tasks are listed |
| TaskController.UserDashboardScoped | backend/controllers/taskController.js:213-246 | the user dashboard is exactly the admin dashboard computed over the caller's tasks; its status and due-today counts stay within the total, and its recent tasks are the caller's |
| TaskController.UserDashboardIgnoresOthersTasks | backend/controllers/taskController.js:213-250 | adding a task not assigned to the caller leaves the whole user dashboard unchanged |
| TaskController.DashboardDueToday | backend/controllers/taskController.js:184-191 | the due-today count is at most the number of tasks and is 0 for an empty window; DueTodayCountsOneMore pins its value |
| TaskController.DueTodayCountsOneMore | backend/controllers/taskController.js:184-191 | the due-today count of an empty store is 0, and one more task raises it by one exactly when its due date lies in [today, tomorrow) |
| TaskController.TaskStore.constructor | backend/controllers/taskController.js:1 | the store starts empty with distinct ids |
| TaskController.TaskStore.CreateTask | backend/controllers/taskController.js:4-23 | a created task is appended under a fresh id; a failed creation changes nothing; ids stay distinct |
| TaskController.TaskStore.UpdateTask | backend/controllers/taskController.js:107-117 | an unknown id gives 404 and changes nothing; otherwise only that task is replaced by the merge, and it is returned |
| TaskController.TaskStore.UpdateTaskChecklist | backend/controllers/taskController.js:133-160 | an unknown task or item gives 404 and changes nothing; otherwise only that task is replaced by the toggled one |
| TaskController.TaskStore.DeleteTask | backend/controllers/taskController.js:163-173 | an unknown id gives 404; otherwise exactly the task with that id is removed and the rest keep their order |
| TaskController.TwoItemProgress | backend/controllers/taskController.js:149-152 | two items give progress 0, 50 or 100 by how many are completed |
| TaskController.ScenarioStep | backend/controllers/taskController.js:143-152 | toggling either item of a two-item task gives the task with that flag and recomputed progress |
| TaskController.ChecklistScenario | backend/controllers/taskController.js:133-160 | worked example: 0, then 50, then 100, then 50 again as items are completed and reopened |
| UserModel.Public | backend/controllers/authController.js:91 | the password-free projection keeps id, name, email, role and image |
| UserModel.UserIndex | backend/controllers/authController.js:91 | the found position holds the user with that id and none before it; absent exactly when no user has it |
| UserModel.EmailIndex | backend/controllers/authController.js:25 | the found position holds the first user with that email; absent exactly when no user has it |
| UserModel.UserStore.constructor | backend/controllers/authController.js:1 | the user collection starts empty with distinct ids |
| AuthController.NewUser | backend/controllers/authController.js:35-39 | a new user takes name, email and the hashed password from the request; role and image take their defaults |
| AuthController.RegisterUser | backend/controllers/authController.js:15-56 | 400 "Please include all fields" on a missing or empty field, 400 "User already exists" on a stored email (both leave the store alone), otherwise the new user is appended under a fresh id and returned with a token; distinct emails stay distinct |
| AuthController.LoginUser | backend/controllers/authController.js:61-83 | succeeds exactly when a user with the email exists and the password matches its hash; every failure is the same 401 "Invalid credentials"; success returns that user's fields and token |
| AuthController.LoginAfterRegister | backend/controllers/authController.js:35-39 | a user just registered logs in with the chosen password |
| AuthController.EmailIndexAppend | backend/controllers/authController.js:25 | a new email appended is found at the end |
| AuthController.GetUserProfile | backend/controllers/authController.js:88-106 | 404 "User not found" exactly when no stored user has the caller's id; otherwise the id, name, email and role of the stored user with that id |
| AuthController.MergeProfileFields | backend/controllers/authController.js:115-124 | id and role never change; name, email and image are overwritten exactly when the body carries a non-empty value; the password hash changes exactly when a password is sent |
| AuthController.MergeProfileEmptyStrings | backend/controllers/authController.js:116-121 | a body of empty or absent values changes nothing |
| AuthController.UpdateUserProfile | backend/controllers/authController.js:111-141 | 404 and no change when the caller is gone; 500 and no change when the merged email belongs to another user; otherwise only the caller's record is replaced by the merge and returned with a token; distinct emails stay distinct |
| AuthController.MergeAloneCanDuplicateEmail | backend/controllers/authController.js:116-126 | the merge itself does not look at other users' emails, so it is the save that refuses a taken email |
| UserController.GetUsers | backend/controllers/userController.js:5-37 | one entry per stored user in store order, without the password, with its pending, in-progress and completed task counts |
| UserController.UserCountsWithinAssigned | backend/controllers/userController.js:11-22 | a user's three counts add up to at most the number of tasks assigned to them |
| UserController.UserCountsMatchUserDashboard | backend/controllers/userController.js:11-22 | a user's counts in the list equal the counts of that user's dashboard |
| UserController.FilterThenCount | backend/controllers/userController.js:11-22 | counting one status among a user's tasks equals counting tasks that are both assigned to the user and in that status |
| UserController.GetUsersById | backend/controllers/userController.js:40-52 | 404 "User not found" exactly when no user has the id; otherwise that user without the password |
| UserController.DeleteUser | backend/controllers/userController.js:55-67 | an unknown id gives 404 and no change; otherwise exactly that user is removed; afterwards no stored user has the id |
| UserController.DeletedUserIsGone | backend/controllers/userController.js:5-67 | after a deletion neither the list nor the single read returns the removed id |
| ReportController.GetDashboardStats | backend/controllers/reportController.js:9-29 | the total is the number of tasks, each status count is the number of tasks with that status and each priority count the number with that priority; DashboardStatsPartitions shows each family adds up |
| ReportController.DashboardStatsPartitions | backend/controllers/reportController.js:9-29 | the status counts and the priority counts each add up to at most the total, exactly the total when every task has a listed status or priority |
| ReportController.DashboardStatsAgreeWithAdminDashboard | backend/controllers/reportController.js:9-12 | the report's total and status counts equal the admin dashboard's |
| ReportController.GroupByAssignees | backend/controllers/reportController.js:43-48 | every bucket counts at least one task |
| ReportController.GroupCountsSum | backend/controllers/reportController.js:43-48 | the bucket counts add up to the number of grouped tasks |
| ReportController.OtherKeysKeepCount | backend/controllers/reportController.js:45 | setting aside the tasks of one assignee list keeps the count of every other list |
| ReportController.GroupKeysOccur | backend/controllers/reportController.js:45 | every bucket key is the assignee list of some grouped task |
| ReportController.CountAfterSetAside | backend/controllers/reportController.js:45-46 | a key other than the first task's counts the same after the first task's bucket is set aside |
| ReportController.LaterKeyDiffers | backend/controllers/reportController.js:45 | every later bucket has a key other than the first |
| ReportController.GroupsCountTheirKey | backend/controllers/reportController.js:44-47 | each bucket counts exactly the tasks whose assignee list equals its key |
| ReportController.GroupKeysDistinct | backend/controllers/reportController.js:45 | no two buckets share a key |
| ReportController.PairOfKeys | backend/controllers/reportController.js:45 | two distinct buckets of the grouping have distinct keys |
| ReportController.UnwindGroup | backend/controllers/reportController.js:50-64 | one row per matched user, in order, with the bucket's key and count and the user's name and email |
| ReportController.LookupAndUnwind | backend/controllers/reportController.js:50-64 | no users give no rows, and every row's name and email are those of a stored user whose id is in the row's assignee list; RowsComplete gives the converse |
| ReportController.RowsComplete | backend/controllers/reportController.js:49-64 | every stored user whose id is in a bucket's key gets a row with that key, the user's name and email and the bucket's count |
| ReportController.UnwindHasUser | backend/controllers/reportController.js:50-57 | a stored user whose id is in a bucket's key is matched and gets a row of that bucket |
| ReportController.RowsComeFromGroups | backend/controllers/reportController.js:50-64 | every row comes from a bucket and a stored user whose id is in that bucket's key |
| ReportController.GetUserPerformance | backend/controllers/reportController.js:39-66 | without a completed task, or without users, the report is empty; UserPerformanceRows gives each row's count, name and email and CompletedTaskGivesRow the rows that must appear |
| ReportController.CompletedTaskGivesRow | backend/controllers/reportController.js:39-66 | every completed task and every stored user listed in it give a row with that task's assignee list, the user's name and email and the number of completed tasks with exactly that list |
| ReportController.UserPerformanceRows | backend/controllers/reportController.js:41-66 | every row's count is the number of completed tasks with exactly its assignee list (at least one), its name and email belong to a stored user in that list, and some completed task has that list |
| ReportController.GroupOfKey | backend/controllers/reportController.js:44-47 | a bucket's count is the count of its key, and that key occurs among the tasks |
| ReportController.TaskHasGroup | backend/controllers/reportController.js:44-47 | every grouped task has a bucket whose key is its assignee list |
| ReportController.GroupCountsAddUpToCompleted | backend/controllers/reportController.js:42-47 | the bucket counts add up to the number of completed tasks |
| ReportController.OpenTasksIgnored | backend/controllers/reportController.js:42 | adding a task that is not completed leaves the report unchanged |
| ReportController.SharedTaskSplitsRows | backend/controllers/reportController.js:45-57 | worked example: a member with a solo task and a shared task appears in two rows of count 1, and the shared task also gives a row for the colleague |
| UploadMiddleware.LastDot | backend/middleware/uploadmiddleware.js:23 | the found position holds the last '.' of the name; absent exactly when there is none |
| UploadMiddleware.BaseName | backend/middleware/uploadmiddleware.js:23 | the part of the path after its last '/': a tail without '/' that is the whole path or follows a '/' |
| UploadMiddleware.ExtName | backend/middleware/uploadmiddleware.js:14 | empty exactly when the base name has no '.' after its first character or is ".."; otherwise the tail of the name from its last '.', with no '/' and no further '.' |
| UploadMiddleware.ExtNameOfStemAndExtension | backend/middleware/uploadmiddleware.js:14 | a stem without '.' or '/' followed by an extension with one leading '.' and no '/' has exactly that extension |
| UploadMiddleware.CheckFileType | backend/middleware/uploadmiddleware.js:20-32 | accepted exactly when the lower-cased extension and the MIME type as sent both contain jpg, jpeg or png; a refusal carries "Images only! (jpg, jpeg, png)" |
| UploadMiddleware.MatchesImagePattern | backend/middleware/uploadmiddleware.js:21-22 | the image pattern holds exactly when "jpg", "jpeg" or "png" occurs at some index of s |
| UploadMiddleware.PatternIsUnanchored | backend/middleware/uploadmiddleware.js:21 | any text containing one of the three words matches the pattern |
| UploadMiddleware.ExtNameOfXpngx | backend/middleware/uploadmiddleware.js:23 | a plain stem followed by ".xpngx" has the extension ".xpngx" |
| UploadMiddleware.ImagePngMatches | backend/middleware/uploadmiddleware.js:25 | "image/png" matches the pattern |
| UploadMiddleware.XpngxMatches | backend/middleware/uploadmiddleware.js:22 | ".xpngx" matches the pattern |
| UploadMiddleware.LowerXpngx | backend/middleware/uploadmiddleware.js:23 | lower-casing ".xpngx" leaves it unchanged |
| UploadMiddleware.AcceptsExtensionContainingPng | backend/middleware/uploadmiddleware.js:20-28 | a file named stem + ".xpngx" sent as image/png is accepted |
| UploadMiddleware.AcceptsUpperCaseExtension | backend/middleware/uploadmiddleware.js:22-24 | a file named stem + ".PNG" sent as image/png is accepted because the extension is lower-cased |
| UploadMiddleware.LowerPng | backend/middleware/uploadmiddleware.js:23 | example value: ".PNG" lower-cased is ".png" |
| UploadMiddleware.DotPngMatches | backend/middleware/uploadmiddleware.js:21-22 | example value: ".png" matches the pattern |
| UploadMiddleware.RejectsUpperCaseMimeType | backend/middleware/uploadmiddleware.js:25 | the MIME type "IMAGE/PNG" is refused because it is not lower-cased |
| UploadMiddleware.RejectsGif | backend/middleware/uploadmiddleware.js:20-31 | a GIF is refused |
| UploadMiddleware.NoPatternInUpperMime | backend/middleware/uploadmiddleware.js:25 | "IMAGE/PNG" does not match the pattern |
| UploadMiddleware.NoPatternInGif | backend/middleware/uploadmiddleware.js:25 | "image/gif" does not match the pattern |
| UploadMiddleware.NoLowerNoMatch | backend/middleware/uploadmiddleware.js:21 | a word starting with a lower-case letter is absent from a text without lower-case letters |
| UploadMiddleware.NoLetterNoMatch | backend/middleware/uploadmiddleware.js:21 | a word containing a letter the text lacks is absent from it |
| UploadMiddleware.StoredFilename | backend/middleware/uploadmiddleware.js:10-16 | the name starts with the field name and a dash, ends with the original extension, and has at least one decimal digit in between and nothing else |
| UploadMiddleware.StoredFilenameParts | backend/middleware/uploadmiddleware.js:10-16 | the stored name is the field name, a dash, the timestamp's decimal digits (which read back as the timestamp) and the original extension |
| Helper.FirstIndexOf | frontend/Task-manager/src/utils/helper.js:7 | the found position holds the first occurrence of the character; absent exactly when it does not occur |
| Helper.ValidateEmail | frontend/Task-manager/src/utils/helper.js:6-9 | an accepted email has at least five characters, contains '@' and does not start with it; ValidateEmailMatchesShape gives the exact pattern |
| Helper.ValidateEmailMatchesShape | frontend/Task-manager/src/utils/helper.js:6-9 | validateEmail holds exactly for local part, '@', domain, '.', top-level domain, each non-empty and free of white space and '@' |
| Helper.ValidEmailHasShape | frontend/Task-manager/src/utils/helper.js:7-8 | an accepted email has the three-part shape of the pattern |
| Helper.ShapeIsValidEmail | frontend/Task-manager/src/utils/helper.js:7-8 | every string of the three-part shape is accepted |
| Helper.FirstAtIsAfterLocalPart | frontend/Task-manager/src/utils/helper.js:7 | in a string of that shape the first '@' is the one after the local part |
| Helper.EmailExamples | frontend/Task-manager/src/utils/helper.js:6-9 | "a@b.co" is accepted and "a@bco" refused |
| Helper.ValidatePassword | frontend/Task-manager/src/utils/helper.js:16-30 | valid exactly for eight characters or more with an upper-case letter, a lower-case letter and a digit; otherwise the message of the first failing check, in that order |
| Helper.PasswordCheckOrder | frontend/Task-manager/src/utils/helper.js:17-29 | a short password is reported as short; a long all-lower-case one for the missing upper-case letter; "Abcdefg1" is strong |
| Helper.Split | frontend/Task-manager/src/utils/helper.js:40 | split gives at least one piece and no piece contains the separator |
| Helper.SplitJoin | frontend/Task-manager/src/utils/helper.js:40-42 | joining the pieces of a split with the separator gives back the string |
| Helper.SplitAfterWord | frontend/Task-manager/src/utils/helper.js:40 | a word followed by the separator splits off as the first piece |
| Helper.SplitWord | frontend/Task-manager/src/utils/helper.js:40 | a string without the separator splits into itself |
| Helper.FirstChars | frontend/Task-manager/src/utils/helper.js:41-42 | the first character of each non-empty word, in order; an empty word adds nothing |
| Helper.GetInitials | frontend/Task-manager/src/utils/helper.js:37-45 | '' for a missing or empty name; otherwise the upper-cased first characters of the first two non-empty pieces of the split on ' ', fewer when there are fewer |
| Helper.InitialsOfTwoWords | frontend/Task-manager/src/utils/helper.js:37-45 | two words give their first characters upper-cased |
| Helper.WordsOfTwoWords | frontend/Task-manager/src/utils/helper.js:40-42 | the non-empty pieces of two words joined by one space are the two words |
| Helper.WordsOfDoubleSpace | frontend/Task-manager/src/utils/helper.js:40-42 | two words joined by two spaces split with an empty piece between them, so their non-empty pieces are again the two words |
| Helper.SameWordsSameInitials | frontend/Task-manager/src/utils/helper.js:37-45 | names with the same non-empty pieces have the same initials |
| Helper.InitialsSkipExtraSpaces | frontend/Task-manager/src/utils/helper.js:40-42 | a double space between words gives the same initials as a single one |
| Helper.CapitalizeFirst | frontend/Task-manager/src/utils/helper.js:106-109 | '' for a missing or empty string; otherwise same length, first character upper-cased and every other lower-cased |
| Helper.CapitalizeFirstIdempotent | frontend/Task-manager/src/utils/helper.js:106-109 | capitalizing twice equals capitalizing once |
| Helper.SliceEnd | frontend/Task-manager/src/utils/helper.js:120 | the end of a slice is clamped to the length |
| Helper.TruncateText | frontend/Task-manager/src/utils/helper.js:117-121 | '' for missing text; the text itself when it fits; otherwise its first maxLength characters (counted from the end for a negative limit) and "..." |
| Helper.TruncateTextBoundedAndIdempotent | frontend/Task-manager/src/utils/helper.js:117-121 | for a non-negative limit the result has at most maxLength + 3 characters and truncating it again changes nothing |
| Helper.DefaultLimit | frontend/Task-manager/src/utils/helper.js:117-121 | with the default limit of 50 a text of at most 50 characters is kept whole, a longer one becomes its first 50 characters and "..." |
| Helper.CalculateCompletionPercentage | frontend/Task-manager/src/utils/helper.js:180-184 | 0 for a missing or empty list, otherwise the rounded percentage of items whose `completed` flag is set; always in 0..100 |
| Helper.CompletionExtremes | frontend/Task-manager/src/utils/helper.js:180-184 | all items completed give 100 (0 for none), no item completed gives 0 |
| Helper.ServerItemsReadAsIncomplete | frontend/Task-manager/src/utils/helper.js:182 | items as the server sends them (with `isCompleted`) always give 0 |
| Helper.IsOverdue | frontend/Task-manager/src/utils/helper.js:191-196 | overdue exactly when a due date is set and lies before now |
| Helper.IsDueSoon | frontend/Task-manager/src/utils/helper.js:203-209 | due soon exactly when a due date is set and 0 < due - now <= three days |
| Helper.OverdueAndDueSoonExclusive | frontend/Task-manager/src/utils/helper.js:191-209 | never both overdue and due soon; a due date equal to now is neither |
| Helper.PriorityRank | frontend/Task-manager/src/utils/helper.js:221-232 | high, medium, low rank 3, 2, 1; any other value ranks 0 |
| Helper.StatusRank | frontend/Task-manager/src/utils/helper.js:222-235 | pending, in-progress, completed rank 1, 2, 3; any other value ranks 0 |
| Helper.SortTasks | frontend/Task-manager/src/utils/helper.js:218-245 | the result is a permutation of the input, ordered by the chosen key; 'asc' negates the key |
| Helper.SortTasksOrders | frontend/Task-manager/src/utils/helper.js:231-243 | by priority high comes before medium before low before unknown; by creation time newest first, and oldest first with 'asc' |
| Helper.SortTasksDefaults | frontend/Task-manager/src/utils/helper.js:218-243 | any order other than 'asc' sorts as 'desc'; an unknown criterion sorts by creation time |
| Helper.FilterTasksByStatus | frontend/Task-manager/src/utils/helper.js:253-256 | the input itself for a missing or empty status or 'all'; otherwise the subsequence of tasks whose status equals it up to letter case, missing none |
| Helper.FilterTasksByStatusIgnoresCase | frontend/Task-manager/src/utils/helper.js:255 | filtering by "Completed" equals filtering by "completed" |
| Helper.FirstCodeUnit | frontend/Task-manager/src/utils/helper.js:276 | the first UTF-16 code unit is at most 0xFFFF |
| Helper.GetAvatarColor | frontend/Task-manager/src/utils/helper.js:263-278 | always one of the eight gradients, the first for a missing or empty name |
| Helper.AvatarColorByFirstCharacter | frontend/Task-manager/src/utils/helper.js:275-277 | names with the same first character get the same colour; "Alice" gets the second |
| UploadImage.ValidateImageFile | frontend/Task-manager/src/utils/uploadimage.js:84-107 | "No file provided" without a file; for a type not allowed, "Invalid file type. Allowed types: " with the upper-cased subtypes (or the thrown error when one has no '/'); for a size above the limit, "File size exceeds nMB limit"; valid exactly when type allowed and size within the limit, and then without error |
| UploadImage.SplitHasSecond | frontend/Task-manager/src/utils/uploadimage.js:97 | a type containing '/' splits into at least two pieces |
| UploadImage.NoSlashOnePiece | frontend/Task-manager/src/utils/uploadimage.js:97 | a type without '/' splits into one piece, so its second piece is undefined |
| UploadImage.TypeLabelOfPair | frontend/Task-manager/src/utils/uploadimage.js:97 | the label of "type/subtype" is the subtype in capitals |
| UploadImage.TypeLabelsDefined | frontend/Task-manager/src/utils/uploadimage.js:97 | the type message can be built exactly when every allowed type has a '/' |
| UploadImage.TypeCheckedBeforeSize | frontend/Task-manager/src/utils/uploadimage.js:94-104 | for a type not allowed the size makes no difference |
| UploadImage.RejectsOtherType | frontend/Task-manager/src/utils/uploadimage.js:86-99 | with the defaults a type outside jpeg, png, gif, webp is refused with a message |
| UploadImage.FiveMiBLabel | frontend/Task-manager/src/utils/uploadimage.js:102 | the default limit renders as "5" |
| UploadImage.SizeLimitIsInclusive | frontend/Task-manager/src/utils/uploadimage.js:101-106 | exactly 5 MiB passes; one byte more fails with "File size exceeds 5MB limit" |
| UploadImage.UploadImageUrl | frontend/Task-manager/src/utils/uploadimage.js:9-43 | null without a request when the file is missing, not `image/` or above 5 MiB, or when the request fails; after a reply, its `imageUrl` when truthy, else its `url` when truthy, else null |
| UploadImage.Present | frontend/Task-manager/src/utils/uploadimage.js:59 | the present values: no more than the input, all of them exactly when nothing is absent, each one from the input, and every present input value kept |
| UploadImage.UploadResults | frontend/Task-manager/src/utils/uploadimage.js:55-56 | one result per file, each the outcome of uploading that file |
| UploadImage.UploadMultipleImages | frontend/Task-manager/src/utils/uploadimage.js:50-60 | [] for no files; at most one URL per file, none empty, one for every file exactly when every upload returned one, and every URL an upload returned is in the result |
| UploadImage.UploadOneMore | frontend/Task-manager/src/utils/uploadimage.js:55-59 | one more file appends the URL its upload returned, if any, after the URLs of the files before it, so the result is the returned URLs in input order |
| UploadImage.RefusedFileDropsOut | frontend/Task-manager/src/utils/uploadimage.js:55-59 | a file refused by the guards drops out and the URLs of the files around it keep their order |
| UploadImage.UploadResultsAround | frontend/Task-manager/src/utils/uploadimage.js:55-56 | a refused file contributes a null in its own place |
| UploadImage.PresentSkipsNone | frontend/Task-manager/src/utils/uploadimage.js:59 | a null between two runs of results is dropped without disturbing them |
| UploadImage.UploadResultsAppend | frontend/Task-manager/src/utils/uploadimage.js:55-56 | uploading two runs of files gives the results of each run, in order |
| UploadImage.PresentAppend | frontend/Task-manager/src/utils/uploadimage.js:59 | filtering out nulls distributes over concatenation |
| ClientModel.FromServerItem | frontend/Task-manager/src/utils/helper.js:182 | an item as the server sends it keeps its text and `isCompleted` and has no `completed` flag |
| TodoListInput.NewTodo | frontend/Task-manager/src/component/Inputs/TodoListinput.jsx:16-19 | a new item has the given text and is not completed |
| TodoListInput.HandleAdd | frontend/Task-manager/src/component/Inputs/TodoListinput.jsx:14-23 | the list is emitted exactly when the trimmed input is non-empty and the editor is enabled, and is then the old list plus one unfinished item with the trimmed text, with the box cleared; otherwise the box keeps its text |
| TodoListInput.WhitespaceAddsNothing | frontend/Task-manager/src/component/Inputs/TodoListinput.jsx:15 | white space alone adds nothing and keeps the box |
| TodoListInput.ToggleItem | frontend/Task-manager/src/component/Inputs/TodoListinput.jsx:34-42 | nothing is emitted exactly when disabled; otherwise only the `completed` flag of the item at the index is flipped |
| TodoListInput.ToggleTwiceRestores | frontend/Task-manager/src/component/Inputs/TodoListinput.jsx:34-42 | toggling the same item twice gives the list back |
| TodoListInput.RemoveItem | frontend/Task-manager/src/component/Inputs/TodoListinput.jsx:45-48 | nothing is emitted exactly when disabled; otherwise the list without the item at the index, the rest in order |
| TodoListInput.RemoveUndoesAdd | frontend/Task-manager/src/component/Inputs/TodoListinput.jsx:14-48 | removing the item just added gives the list back |
| TodoListInput.RemoveLast | frontend/Task-manager/src/component/Inputs/TodoListinput.jsx:47 | removing the last position of a list drops exactly that element |
| TodoListInput.UpdateItemText | frontend/Task-manager/src/component/Inputs/TodoListinput.jsx:51-56 | nothing is emitted exactly when disabled; otherwise only the text of the item at the index changes, its flags stay |
| TodoListInput.UpdateTextProperties | frontend/Task-manager/src/component/Inputs/TodoListinput.jsx:34-56 | writing an item's own text back changes nothing, and a text edit commutes with a toggle of the same item |
| SelectUser.FilteredUsers | frontend/Task-manager/src/component/Inputs/SelectUser.jsx:31-34 | the subsequence of users whose name or email contains the term ignoring letter case, missing none |
| SelectUser.EmptySearchKeepsNamedUsers | frontend/Task-manager/src/component/Inputs/SelectUser.jsx:31-34 | an empty term keeps every user that has a name or an email |
| SelectUser.RemoveUser | frontend/Task-manager/src/component/Inputs/SelectUser.jsx:52-55 | no occurrence of the id is left; the other ids stay, in order |
| SelectUser.IsSelected | frontend/Task-manager/src/component/Inputs/SelectUser.jsx:37 | selected exactly when the id occurs at some position of the selection |
| SelectUser.ToggleUser | frontend/Task-manager/src/component/Inputs/SelectUser.jsx:37-46 | the id's membership flips and no other id's changes; an unselected id is appended at the end |
| SelectUser.ToggleTwiceUnselected | frontend/Task-manager/src/component/Inputs/SelectUser.jsx:40-46 | toggling an unselected id twice gives the selection back |
| SelectUser.ToggleTwiceSelected | frontend/Task-manager/src/component/Inputs/SelectUser.jsx:40-46 | toggling a selected id twice moves it, once, to the end |
| SelectUser.SelectedUsersData | frontend/Task-manager/src/component/Inputs/SelectUser.jsx:49 | the subsequence of users whose id is selected, missing none |
| SelectUser.SelectedUsersFollowListOrder | frontend/Task-manager/src/component/Inputs/SelectUser.jsx:49 | the selected users come in the order of the user list, not of the selection |
| AddAttachmentsInput.HandleFiles | frontend/Task-manager/src/component/Inputs/AddattachmentsInput.jsx:67-98 | nothing and no alert when disabled; otherwise the loop raises the alerts of the scan, and `onChange` receives the old attachments followed by the accepted files, only when at least one was accepted |
| AddAttachmentsInput.ScanAcceptsSubsequence | frontend/Task-manager/src/component/Inputs/AddattachmentsInput.jsx:73-93 | the accepted files are some of the chosen files, in the order chosen |
| AddAttachmentsInput.ScanRespectsLimit | frontend/Task-manager/src/component/Inputs/AddattachmentsInput.jsx:75-78 | the new list is no longer than the old one or maxFiles, whichever is larger |
| AddAttachmentsInput.ScanAcceptsOnlyFitting | frontend/Task-manager/src/component/Inputs/AddattachmentsInput.jsx:81-90 | every accepted file is within the size limit and matches no existing attachment by name and size |
| AddAttachmentsInput.ScanKeepsPrefix | frontend/Task-manager/src/component/Inputs/AddattachmentsInput.jsx:92 | files accepted earlier stay accepted, in place |
| AddAttachmentsInput.LargeFileIsSkipped | frontend/Task-manager/src/component/Inputs/AddattachmentsInput.jsx:81-84 | a file that is too large is skipped with an alert and the scan goes on with the next file |
| AddAttachmentsInput.FullListAcceptsNothing | frontend/Task-manager/src/component/Inputs/AddattachmentsInput.jsx:75-78 | once the attachments fill the limit, a choice adds nothing and raises exactly one alert |
| AddAttachmentsInput.SameFileTwiceInOneBatch | frontend/Task-manager/src/component/Inputs/AddattachmentsInput.jsx:87 | the same file chosen twice in one batch is accepted twice |
| AddAttachmentsInput.RemoveAttachment | frontend/Task-manager/src/component/Inputs/AddattachmentsInput.jsx:123-126 | nothing is emitted exactly when disabled; otherwise exactly the entry at the index is dropped, and an index outside the list drops nothing |
| SelectDropDown.FilteredOptions | frontend/Task-manager/src/component/Inputs/SelectDropDown.jsx:32-34 | the subsequence of options whose label contains the search term ignoring letter case, missing none |
| SelectDropDown.EmptyTermKeepsAll | frontend/Task-manager/src/component/Inputs/SelectDropDown.jsx:14-34 | with the initial empty search term every option is kept |
| SelectDropDown.SelectedOption | frontend/Task-manager/src/component/Inputs/SelectDropDown.jsx:37 | the first option carrying the value; none exactly when no option carries it |
| SelectDropDown.TriggerText | frontend/Task-manager/src/component/Inputs/SelectDropDown.jsx:65-67 | the selected option's label, or the placeholder when no option carries the value |
| SelectDropDown.Dropdown.constructor | frontend/Task-manager/src/component/Inputs/SelectDropDown.jsx:13-14 | the menu starts closed with an empty search term |
| SelectDropDown.Dropdown.Listed | frontend/Task-manager/src/component/Inputs/SelectDropDown.jsx:79-119 | nothing is listed while closed; while open exactly the filtered options, all of them for an empty term |
| SelectDropDown.Dropdown.HandleSelect | frontend/Task-manager/src/component/Inputs/SelectDropDown.jsx:39-43 | the option's value is emitted, the menu closes and the term is cleared |
| SelectDropDown.Dropdown.ClickTrigger | frontend/Task-manager/src/component/Inputs/SelectDropDown.jsx:57 | the menu flips exactly when not disabled; the term is kept |
| SelectDropDown.Dropdown.MouseDown | frontend/Task-manager/src/component/Inputs/SelectDropDown.jsx:19-29 | a press outside closes the menu and clears the term; one inside changes nothing |
| SelectDropDown.Dropdown.TypeSearch | frontend/Task-manager/src/component/Inputs/SelectDropDown.jsx:82-88 | the term follows the typed text only while open and searchable |
| SelectDropDown.TriggerScenario | frontend/Task-manager/src/component/Inputs/SelectDropDown.jsx:39-57 | two clicks restore the menu, and after a selection the next open lists every option |
| MyTask.TasksFromResponse | frontend/Task-manager/src/pages/User/MyTask.jsx:27 | the `tasks` array of an object body, a bare array as it is, an empty list for no body; an object without `tasks` is not a list |
| MyTask.GetStatusCounts | frontend/Task-manager/src/pages/User/MyTask.jsx:37-44 | `all` is the number of tasks and each status badge counts the tasks with exactly that status; the three never exceed `all` and add up to it when every status is one of the three |
| MyTask.OnTab | frontend/Task-manager/src/pages/User/MyTask.jsx:57-62 | a task on the tab matches the search, and has the tab's status unless the tab is 'all', on which matching the search is enough |
| MyTask.FilteredTasks | frontend/Task-manager/src/pages/User/MyTask.jsx:57-62 | the subsequence of tasks on the status tab whose title or description contains the query ignoring case, missing none |
| MyTask.ListWithinBadges | frontend/Task-manager/src/pages/User/MyTask.jsx:37-62 | the list shown is never longer than the `all` badge nor, on a status tab, than that tab's badge |
| MyTask.BadgeMatchesTab | frontend/Task-manager/src/pages/User/MyTask.jsx:40-62 | with an empty search and every task titled or described, a status tab lists exactly as many tasks as its badge |
| MyTask.EmptySearchMatches | frontend/Task-manager/src/pages/User/MyTask.jsx:59-60 | the empty query matches exactly the tasks that have a title or a description |
| MyTask.CalculateProgress | frontend/Task-manager/src/pages/User/MyTask.jsx:79-83 | 0 for a missing or empty checklist, else the rounded percentage of items whose `isCompleted` is set, always within 0..100 |
| MyTask.AsReceived | frontend/Task-manager/src/pages/User/MyTask.jsx:80-81 | a stored checklist read by the browser keeps its length and each item's text and flag |
| MyTask.ProgressMatchesServer | frontend/Task-manager/src/pages/User/MyTask.jsx:79-83 | the page's bar equals the progress the server stores after a checklist update |
| MyTask.ProgressDiffersFromHelper | frontend/Task-manager/src/pages/User/MyTask.jsx:79-83 | on a fully finished server checklist this page shows 100 while the shared helper shows 0 |
| MyTask.DiffDays | frontend/Task-manager/src/pages/User/MyTask.jsx:90-91 | the days to go rounded up: at most 0 for a due time not after now, at least 1 for one after it |
| MyTask.CeilDiv | frontend/Task-manager/src/pages/User/MyTask.jsx:91 | `Math.ceil(d / m)`: the least integer r with d <= r * m |
| MyTask.FormatDate | frontend/Task-manager/src/pages/User/MyTask.jsx:86-99 | "No due date" without a date; "Overdue", "Due today", "Due tomorrow" on the exact day windows before and after now; "Due in n days" for 2..7 days; a locale date beyond a week |
| MyTask.DueInLabel | frontend/Task-manager/src/pages/User/MyTask.jsx:96 | a "Due in n days" label never equals one of the fixed labels |
| MyTask.IsOverdue | frontend/Task-manager/src/pages/User/MyTask.jsx:101 | overdue exactly when the helper's isOverdue holds of the due date and the task is not completed |
| MyTask.IsOverdueProperties | frontend/Task-manager/src/pages/User/MyTask.jsx:101 | overdue means a due date before now and not completed; a completed or undated task is never overdue |
| MyTask.OverdueYetDueToday | frontend/Task-manager/src/pages/User/MyTask.jsx:93-101 | a task due less than a day ago is marked overdue while labelled "Due today" |
| ManageTask.AllTabEmptySearch | frontend/Task-manager/src/pages/Admin/ManageTask.jsx:56-61 | the "All" tab with an empty search lists the tasks that have a title or a description, in order, so all of them when every task has one |
| ManageTask.UntitledTaskIsHidden | frontend/Task-manager/src/pages/Admin/ManageTask.jsx:36-61 | a task with neither title nor description is listed under no tab for any search, while the `all` badge counts it |
| ManageUser.GetCounts | frontend/Task-manager/src/pages/Admin/ManageUser.jsx:35-41 | `all` is the number of users and the role badges count exactly 'admin' and 'member'; together at most `all`, equal when every role is one of the two |
| ManageUser.OnRoleTab | frontend/Task-manager/src/pages/Admin/ManageUser.jsx:46-51 | a user on the tab matches the search, and has the tab's role unless the tab is 'all', on which matching the search is enough |
| ManageUser.FilteredUsers | frontend/Task-manager/src/pages/Admin/ManageUser.jsx:46-51 | the subsequence of users on the role tab whose name or email contains the query ignoring case, missing none |
| ManageUser.RoleTabWithinBadge | frontend/Task-manager/src/pages/Admin/ManageUser.jsx:35-51 | a role tab never lists more users than its badge counts |
| ManageUser.UserPage.constructor | frontend/Task-manager/src/pages/Admin/ManageUser.jsx:8-25 | after the fetch the page holds the fetched users with no pick and the modal closed |
| ManageUser.UserPage.HandleDeleteClick | frontend/Task-manager/src/pages/Admin/ManageUser.jsx:64-67 | the user is picked and the modal opens; the list is unchanged |
| ManageUser.UserPage.HandleDeleteConfirm | frontend/Task-manager/src/pages/Admin/ManageUser.jsx:69-80 | without a pick nothing changes; otherwise every user with the picked id leaves the local list, the modal closes and the pick clears |
| ManageUser.UserPage.CancelDelete | frontend/Task-manager/src/pages/Admin/ManageUser.jsx:266 | the modal closes; the pick and the list stay |
| ManageUser.DeleteConfirmEffect | frontend/Task-manager/src/pages/Admin/ManageUser.jsx:74 | after a confirmed deletion no user has the id, the others stay in order, and the `all` badge drops when the id was listed |
| ManageUser.DeleteScenario | frontend/Task-manager/src/pages/Admin/ManageUser.jsx:64-80 | pick, cancel, pick and confirm: no user with that id is left and the page is at rest |
| SignUp.SetField | frontend/Task-manager/src/pages/Auth/SignUp.jsx:29-32 | the named field takes the value and every other field keeps its own |
| SignUp.ErrorMapAt | frontend/Task-manager/src/pages/Auth/SignUp.jsx:40-71 | a field has an entry in the error object exactly when its check failed, holding that check's message; the invite token never has one |
| SignUp.CollectErrors | frontend/Task-manager/src/pages/Auth/SignUp.jsx:40-71 | adding each failing check's message under its field in turn builds exactly that error object |
| SignUp.FormErrorsAt | frontend/Task-manager/src/pages/Auth/SignUp.jsx:39-75 | for a concrete form, a field has an error exactly when its check fails, with that check's message |
| SignUp.NameError | frontend/Task-manager/src/pages/Auth/SignUp.jsx:43-47 | no error exactly when the trimmed name has at least two characters; otherwise "Name is required" or "Name must be at least 2 characters" |
| SignUp.EmailError | frontend/Task-manager/src/pages/Auth/SignUp.jsx:50-54 | no error exactly when validateEmail accepts the email; otherwise "Email is required" or "Please enter a valid email address" |
| SignUp.PasswordError | frontend/Task-manager/src/pages/Auth/SignUp.jsx:57-64 | no error exactly when the password is strong; otherwise "Password is required" or validatePassword's message |
| SignUp.ConfirmError | frontend/Task-manager/src/pages/Auth/SignUp.jsx:67-71 | no error only when the confirmation equals the password; otherwise "Please confirm your password" or "Passwords do not match" |
| SignUp.NameErrorMeaning | frontend/Task-manager/src/pages/Auth/SignUp.jsx:43-47 | the name passes exactly when its trimmed form has at least two characters; a blank name is "Name is required" |
| SignUp.EmailErrorMeaning | frontend/Task-manager/src/pages/Auth/SignUp.jsx:50-54 | the email passes exactly when validateEmail accepts it; a blank email is "Email is required" |
| SignUp.PasswordErrorMeaning | frontend/Task-manager/src/pages/Auth/SignUp.jsx:57-64 | the password passes exactly when it is strong; a non-empty weak one carries validatePassword's message |
| SignUp.ConfirmErrorMeaning | frontend/Task-manager/src/pages/Auth/SignUp.jsx:67-71 | the confirmation passes exactly when it is non-empty and equals the password |
| SignUp.ValidEmailIsTrimmed | frontend/Task-manager/src/pages/Auth/SignUp.jsx:50-54 | an email validateEmail accepts is non-empty and has no white space at either end |
| SignUp.FormAcceptedIff | frontend/Task-manager/src/pages/Auth/SignUp.jsx:39-75 | validateForm returns true exactly when the trimmed name has two characters or more, the email is valid, the password strong and repeated exactly |
| SignUp.BuildPayload | frontend/Task-manager/src/pages/Auth/SignUp.jsx:110-124 | trimmed name and email and the password as typed; the image URL only when truthy; the trimmed token only when its field is shown and it is not blank |
| SignUp.AsRegisterBody | frontend/Task-manager/src/pages/Auth/SignUp.jsx:123 | read by the registration handler, the body's invite token arrives as absent and the other fields as sent |
| SignUp.AcceptedFormPassesServerCheck | frontend/Task-manager/src/pages/Auth/SignUp.jsx:110-114 | a form that passes validation passes the handler's required-fields check, and its email is sent exactly as typed |
| SignUp.SignUpPage.constructor | frontend/Task-manager/src/pages/Auth/SignUp.jsx:15-25 | every field empty, no errors, the invite-token field hidden |
| SignUp.SignUpPage.HandleChange | frontend/Task-manager/src/pages/Auth/SignUp.jsx:27-37 | the field takes the value, a set error of that field is cleared to '', everything else stays |
| SignUp.SignUpPage.ValidateForm | frontend/Task-manager/src/pages/Auth/SignUp.jsx:39-75 | the error state becomes the form's error object, the form is unchanged, and the result is true exactly when there are no errors |
| CreateTask.SetText | frontend/Task-manager/src/pages/Admin/CreateTask.jsx:61-69 | the named string field takes the value; every other field, the assignees, the checklist and the attachments keep theirs |
| CreateTask.ErrorMapAt | frontend/Task-manager/src/pages/Admin/CreateTask.jsx:87-91 | a key has an entry in the error object exactly when its check failed, holding that check's message; priority and status never have one |
| CreateTask.CollectErrors | frontend/Task-manager/src/pages/Admin/CreateTask.jsx:87-91 | adding each failing check's message under its key in turn builds exactly that error object |
| CreateTask.TitleError | frontend/Task-manager/src/pages/Admin/CreateTask.jsx:88 | no error exactly when the title has a character that is not white space, which is the `trim()` test (Common.TrimEmptyIffAllSpace); otherwise "Title is required" |
| CreateTask.DescriptionError | frontend/Task-manager/src/pages/Admin/CreateTask.jsx:89 | no error exactly when the description has a character that is not white space, the `trim()` test; otherwise "Description is required" |
| CreateTask.DueDateError | frontend/Task-manager/src/pages/Admin/CreateTask.jsx:90 | no error exactly when a due date is set; otherwise "Due date is required" |
| CreateTask.AssigneeError | frontend/Task-manager/src/pages/Admin/CreateTask.jsx:91 | no error exactly when someone is assigned; otherwise "Please assign at least one team member" |
| CreateTask.TextChecksAt | frontend/Task-manager/src/pages/Admin/CreateTask.jsx:88-89 | title and description each get their "required" message exactly when blank |
| CreateTask.PresenceChecksAt | frontend/Task-manager/src/pages/Admin/CreateTask.jsx:90-91 | the due date gets its message exactly when empty, the assignees exactly when nobody is assigned |
| CreateTask.UncheckedKeysAt | frontend/Task-manager/src/pages/Admin/CreateTask.jsx:86-95 | priority and status never get a message |
| CreateTask.FormErrorsAt | frontend/Task-manager/src/pages/Admin/CreateTask.jsx:86-95 | one message per missing part, each with its fixed text, and none for priority or status |
| CreateTask.FormAcceptedIff | frontend/Task-manager/src/pages/Admin/CreateTask.jsx:86-95 | validateForm returns true exactly when title and description are not blank, a due date is set and somebody is assigned |
| CreateTask.InitialFormRejected | frontend/Task-manager/src/pages/Admin/CreateTask.jsx:86-95 | the untouched form fails on title, description, due date and assignees |
| CreateTask.TitleOnlyRejected | frontend/Task-manager/src/pages/Admin/CreateTask.jsx:86-95 | with only a title filled in, description, due date and assignees still fail |
| CreateTask.CreateTaskPage.constructor | frontend/Task-manager/src/pages/Admin/CreateTask.jsx:16-27 | the initial form (priority 'medium', status 'pending', everything else empty) and no messages |
| CreateTask.CreateTaskPage.HandleChange | frontend/Task-manager/src/pages/Admin/CreateTask.jsx:59-73 | the field takes the value and only that field's set message is cleared to '' |
| CreateTask.CreateTaskPage.HandleAssigneesChange | frontend/Task-manager/src/pages/Admin/CreateTask.jsx:68-73 | the assignees are replaced and only their set message is cleared |
| CreateTask.CreateTaskPage.HandleChecklistChange | frontend/Task-manager/src/pages/Admin/CreateTask.jsx:76-78 | only the checklist is replaced; the messages stay |
| CreateTask.CreateTaskPage.HandleAttachmentsChange | frontend/Task-manager/src/pages/Admin/CreateTask.jsx:81-83 | only the attachments are replaced; the messages stay |
| CreateTask.CreateTaskPage.ValidateForm | frontend/Task-manager/src/pages/Admin/CreateTask.jsx:86-95 | the error state becomes the form's error object, the form is unchanged, and the result is true exactly when there are no errors |
| CreateTask.ValidationScenario | frontend/Task-manager/src/pages/Admin/CreateTask.jsx:59-95 | the untouched form shows four messages; once a title is typed the next validation shows the other three only |
| UserContext.Merge | frontend/Task-manager/src/context/Usercontext.jsx:52-60 | `{ ...prev, ...data }`: the fields of both, the new value where `data` has one, the old value elsewhere |
| UserContext.MergeIdempotent | frontend/Task-manager/src/context/Usercontext.jsx:52-55 | merging the same fields twice is merging them once, and merging nothing changes nothing |
| UserContext.Session.constructor | frontend/Task-manager/src/context/Usercontext.jsx:17-19 | no user, loading, no error, and the browser's storage as it was |
| UserContext.Session.FetchUser | frontend/Task-manager/src/context/Usercontext.jsx:22-48 | loading always ends; without a token nothing else changes; a profile becomes the user and clears the error; a failure clears the user and records the server's message or the fixed one, and a 401 also removes the token and the stored user |
| UserContext.Session.UpdateUser | frontend/Task-manager/src/context/Usercontext.jsx:51-62 | the fields are merged over the current user (over an empty object when there is none), and over the stored user only when one is stored |
| UserContext.Session.IsAuthenticated | frontend/Task-manager/src/context/Usercontext.jsx:86-88 | authenticated only with a user set and a non-empty token stored |
| UserContext.Session.IsAdmin | frontend/Task-manager/src/context/Usercontext.jsx:91-93 | admin only with a user set whose `role` is exactly "admin" |
| UserContext.Session.Login | frontend/Task-manager/src/context/Usercontext.jsx:65-70 | token and user are stored, the user is set and the error cleared; the session is then authenticated exactly when the token is non-empty, and admin exactly when the role is 'admin' |
| UserContext.Session.Logout | frontend/Task-manager/src/context/Usercontext.jsx:73-78 | both entries are removed, user and error cleared; the session is then neither authenticated nor admin |
| UserContext.Session.ClearError | frontend/Task-manager/src/context/Usercontext.jsx:81-83 | only the error is cleared |
| UserContext.LoginThenRename | frontend/Task-manager/src/context/Usercontext.jsx:51-70 | after a login and a rename the session stays authenticated with the same role, and the stored copy carries the new name |
| UserContext.ExpiredToken | frontend/Task-manager/src/context/Usercontext.jsx:22-48 | a 401 on mount leaves nobody signed in and neither key stored |
| PrivateRoute.Guard | frontend/Task-manager/src/routes/PrivateRoute.jsx:5-36 | the spinner exactly while loading; the login page when nobody is signed in; the child page exactly when signed in and the role is listed or no list is given; a refused admin goes to the admin dashboard, anyone else to the user dashboard |
| App.Root | frontend/Task-manager/src/App.jsx:48-58 | an empty outlet while loading or for an admin; the login page for nobody signed in; the user dashboard for every other role |
| App.Visit | frontend/Task-manager/src/App.jsx:19-40 | login and sign-up always render; an admin page renders exactly for a finished session whose role is 'admin', a user page exactly for 'user' or 'member'; "/" renders its outlet exactly while loading or for an admin |
| App.ProtectedPagesNeedSession | frontend/Task-manager/src/App.jsx:25-37 | a protected page shows the spinner while loading, the login page to a visitor not signed in, and renders only for a signed-in user |
| App.PagesByRole | frontend/Task-manager/src/App.jsx:25-37 | an admin page renders exactly for role 'admin', a user page exactly for 'user' and 'member' |
| App.RolesStayApart | frontend/Task-manager/src/App.jsx:25-37 | an admin on a user page is sent to the admin dashboard, a member on an admin page to the user dashboard, and each dashboard then renders |
| App.OtherRoleRedirectsToItself | frontend/Task-manager/src/App.jsx:25-38 | an account with any other role or none is sent from every protected page and from "/" to the user dashboard, which redirects to itself |
| App.RootLandsOnDashboard | frontend/Task-manager/src/App.jsx:34-57 | "/" sends a user or member to the user dashboard, and that page renders for them |
| Progress.Percentage | frontend/Task-manager/src/component/layout/Progress.jsx:5 | always within 0..100: the value itself inside that range, 0 below it, 100 above it |
| Progress.AutoColour | frontend/Task-manager/src/component/layout/Progress.jsx:24-29 | success from 75, primary from 50 below 75, warning from 25 below 50, danger below 25 |
| Progress.NamedColour | frontend/Task-manager/src/component/layout/Progress.jsx:15-21 | a variant exactly for the five names of `colorClasses` |
| Progress.Render | frontend/Task-manager/src/component/layout/Progress.jsx:31-44 | label and width are the clamped percentage; 'auto' colours by threshold, a known name gives its variant, any other name the primary one |
| Progress.AutoColourMonotone | frontend/Task-manager/src/component/layout/Progress.jsx:5-29 | in 'auto' mode more progress never gives a worse colour, and a value outside 0..100 draws like the nearest end |
| Progress.DefaultBar | frontend/Task-manager/src/component/layout/Progress.jsx:3 | the defaults draw an empty primary bar; an empty 'auto' bar is danger |
| AvatarGroup.SliceTo | frontend/Task-manager/src/component/layout/AvatarGroup.jsx:10 | `slice(0, end)`: a prefix, of length min(end, n) for a non-negative end and n + end (at least 0) for a negative one |
| AvatarGroup.FaceOf | frontend/Task-manager/src/component/layout/AvatarGroup.jsx:57-65 | the image exactly when the URL is truthy; otherwise one letter: the name's first upper-cased, or "U" without a name |
| AvatarGroup.Render | frontend/Task-manager/src/component/layout/AvatarGroup.jsx:10-79 | the placeholder exactly for no users; otherwise the sliced users, and a badge exactly when the list is longer than the limit, counting the difference |
| AvatarGroup.ShownPlusBadgeIsAll | frontend/Task-manager/src/component/layout/AvatarGroup.jsx:10-79 | with a non-negative limit the first min(limit, n) users show in order, the avatars and the badge add up to the whole list, and a short list shows everyone with no badge |
| AvatarGroup.NegativeLimit | frontend/Task-manager/src/component/layout/AvatarGroup.jsx:10-11 | a negative limit drops users from the back while the badge counts more than the hidden ones |

## Left out

- Transport and persistence: Express routing, the database driver, `populate` joins and the `$lookup` internals are outside the model. Stores are in-memory sequences, and joined documents are reduced to the ids they hold.
- Schemas: the Task and User schema files are not part of this model. Their defaults are assumptions: status 'pending', priority 'medium', progress 0, role 'member'. A schema rejection is a 500 reply.
- Route files: the `adminOnly` gating of the user and report routes is not modelled. The handlers are modelled as if called by an authorised caller of the stated role.
- `updateChecklist` (taskController.js:120-129) is exported but no route reaches it; it is not modelled. The item toggle `updateTaskChecklist` is.
- Catch branches: the 500 replies that every handler gives on an exception (a database failure, a malformed id) are not modelled. The one exception is the refused save of a taken email in `updateUserProfile`.
- `console.error` and `console.log` calls are not modelled.
- Cryptography and tokens: bcrypt and jsonwebtoken enter as the function parameters `hash`, `compare` and `sign`, so salting and token expiry are not modelled.
- Clock: `new Date()`, `Date.now()` and the local-time `setHours` of the due-today window are not modelled. Timestamps are integers, and the two midnights bounding today are parameters.
- Floating point: the model has no fractional values.
  - `Math.round` of a quotient is round-half-up of the exact quotient.
  - `Math.ceil` of a day difference is integer ceiling division.
  - `toFixed(0)` in the size label of `validateImageFile` is round-half-up of the exact quotient too.
  - A fractional value passed to the progress bar is not modelled.
- Common.RoundHalfUp: rounds the exact quotient, while `Math.round((c / n) * 100)` rounds a floating-point product that can fall just below a half. For 23 of 40 items the product is 57.49999999999999, so the program gives 57 where the model gives 58. This affects the stored task progress (taskController.js:151), `calculateCompletionPercentage` (helper.js:183) and MyTask's `calculateProgress` (MyTask.jsx:82).
- Locale formatting: `toLocaleDateString` is not modelled. MyTask's `formatDate` returns the date itself for dates more than a week away.
- helper.js:
  - `formatDate`, `formatDateTime` and `getRelativeTime` are left out (locale and clock);
  - `getPriorityColors` and `getStatusColors` are left out (styling lookups);
  - `debounce` is left out (timers);
  - `formatFileSize` is left out (floating-point logarithms).
- uploadimage.js: `fileToBase64` and `compressImage` (FileReader, canvas) are left out. For `uploadImage`, only the guards before the request are modelled; the network request is not.
- AddattachmentsInput.jsx: `getFileIcon`, `formatSize` and the drag-and-drop handlers are presentation and are left out.
- Order of concurrent work: `Promise.all` in `getTasks` and `getUsers` is modelled as a sequential map. The read-modify-write race between two concurrent checklist toggles is not modelled.
- Aggregation output order: the order of the groups that `$group` produces is not modelled.
- Update bodies: a body carries only the schema fields. An `_id`, a `createdAt` or an unknown key that a client sends is not modelled, and the id and creation time of a task never change. Schema validation of the values is not modelled; the merge only overwrites.
- Dates without a value: an unparsable date string is not modelled. Dates are integers or absent. An absent due date sorts as key 0, whereas `new Date(undefined)` yields NaN, which gives the comparator no consistent answer.
- Characters: case mapping covers the ASCII letters only.
  - Lengths count Unicode code points, not UTF-16 code units.
  - The exception is `getAvatarColor`, whose `charCodeAt(0)` is modelled by `Helper.FirstCodeUnit`.
- UploadMiddleware.ExtName: models `path.extname` on names without trailing path separators.
- Invite token: the registration handler destructures `adminviteToken` and never uses it. The token therefore has no effect, as `SignUp.AsRegisterBody` states.
- TaskController.ToggleItem: the new flag is a boolean. A body without `isCompleted` (taskController.js:135) stores `undefined` on the item. The progress count reads that as not completed, as it reads false, but the stored value itself is not modelled.
- TaskController.NewTask: the created task's progress is always 0, because `createTask` (taskController.js:8-17) does not pass `progress` and the schema default applies. A body whose items are already completed therefore creates a task whose progress disagrees with its checklist (TaskController.CreateCanDesynchronizeProgress). The next checklist toggle recomputes progress and brings the two back in line; a body with no completed item creates a consistent task (TaskController.CreateConsistentWithoutCompleted).
- AuthController.UpdateUserProfile: a unique index on `email` is assumed on the User schema, which is not part of this model. `user.save()` then throws on a taken email, and the 500 reply carries the driver's message, a parameter.
- TodoListInput.ToggleItem: requires an index inside the list. The editor only calls it with the index of a rendered item. An index outside the list would make the source throw on `undefined.completed`.
- TodoListInput.UpdateItemText: requires an index inside the list. For an index outside it, the source would write a new entry past the end.
- UserContext.Session.UpdateUser: every stored 'user' entry that is not a JSON object is left unchanged. In the source, `JSON.parse` throws only on text that is not JSON; a stored `null`, number or string parses, and its spread with the new fields is written back. Neither case is modelled.
- UserContext.Session.FetchUser: the reply body is assumed to be a JSON object.
- UserContext: all field values of a user object are strings.
- Progress: colour names that are prototype keys of `colorClasses` (such as `toString`) are not modelled. The size classes and styling are not modelled either.
- AvatarGroup: tooltips, click callbacks and size classes are presentation and are left out.
- SignUp: the image upload, storing the reply and the redirect are network, storage and router calls. Only the request body is modelled.
- CreateTask: the submit request, its `submit` error key, the user fetch and the navigation are not modelled.
- ManageUser: the user fetch and the view and edit handlers, which only log, are not modelled.
- MyTask: the page's own fetch and its error message are not modelled. Only the response fallback is.
