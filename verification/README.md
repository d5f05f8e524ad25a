# Freelance collaboration platform: statistics, ranking, relay and client state

This project models, in Dafny, the computational core of a freelance
collaboration platform with an Express/Mongoose back end, a socket.io relay
and React pages. It covers the following parts:

- **User statistics** (`UserStats`, `Percent`). These are the `/user-stats` counters:
  - the on-time percentage;
  - skill-occurrence counts;
  - the mean rating;
  - the "last five, newest first" activity list;
  - the collaborator task count and the collaborator on-time rate.
- **Add-skill validation** (`SkillValidation`). The server-side check of a posted skill, and the push of the trimmed name and percentage.
- **Daily streak** (`Streak`). The `/update-streak` day-gap state machine and the rating-score clean-up that precedes it.
- **Ranking** (`Ranking`). The `/users` Bayesian weighted rating:
  - a confidence threshold of 5 ratings;
  - the pooled global mean C;
  - the descending sort.
- **Room relay** (`RoomRelay`). Room membership (room → set of sockets) with join and leave, and the table that maps each inbound socket event to its outbound event and payload. As in socket.io, each socket is also a member of a room named by its own id. It joins that room on connecting and leaves every room on disconnecting. A relayed event goes to the room's members except the members of the sender's id room, which in the usual state is just the sender.
- **Workspace client** (`Workspace`). The collaboration page's state:
  - the code file list: create, select, rename, delete;
  - language detection from the file extension;
  - the Judge0 language id;
  - the chat log;
  - the guards on emitting edits, saving and running.
- **Project form** (`ProjectForm`). The task list editing and the comma-separated skills formatting of the project creation page.
- **User cards** (`UserCards`). The star rendering, the per-card mean rating and the completed/overdue ratio of the users page.
- **Dashboard skill form** (`SkillForm`). Its validation (including the `Number()` conversion), its reset rules and the chart width rule.
- **Star selector** (`StarRating`) and **accept-applicant list** (`Applicants`).
- **Stored documents** (`Models`). The user and project schemas: required fields, defaults, the score range and the status enum.

Shared vocabulary lives in `Basics` (Option, Result), `Seqs` (order-keeping filter, subsequences, sums, "newest first") and `Text`. `Text` covers the JavaScript string built-ins the code uses:
- `trim` with the ECMAScript whitespace set;
- `split`, and `split(...).pop()`;
- lower-casing.

Database reads, HTTP responses, prompts and confirmations are parameters of the functions: an `Option` is `None` when the request failed or the prompt was cancelled. Day numbers are integers and means are `real`s. JavaScript `Math.round(100 * a / b)` is `Percent.RoundPercent`. It is computed with the integer formula `(200a + b) div 2b` and proved equal to `floor(x + 1/2)`.

## Model

| member | source | states |
|---|---|---|
| Models.RequireString | backend/models/User.js:5-7 | a required string field is accepted exactly when it is present and non-empty, and is then kept unchanged |
| Models.NewUser | backend/models/User.js:5-19 | a user is created exactly when username, email and password are all present, and stores those three values; the three counters start at 0, there are no ratings or skills and no last task date |
| Models.ParseStatus | backend/models/Project.js:8 | the task status accepts exactly "pending" and "completed" and defaults to pending; "completed" is the only way to get Completed |
| Models.NewTask | backend/models/Project.js:3-9 | a task is created exactly when title and role are present, a deadline is given and the status is in the enum; it stores the given title, role, skills and deadline, the status is completed exactly when "completed" was sent and pending otherwise, and there are no collaborators or completion date |
| Models.NewTasks | backend/models/Project.js:14 | a task array validates exactly when every element does, and then the result holds, index by index, each element's validated task |
| Models.NewProject | backend/models/Project.js:11-19 | a project is created exactly when title, description, budget, deadline and creator are present and all tasks validate; it stores the given title, description, budget, deadline and creator and the validated tasks, and createdAt is the creation time |
| Models.NewTaskOfStored | backend/models/Project.js:3-9 | a task as the schema creates it, sent back with its declared fields, validates to the same task |
| Models.NewTasksOfStored | backend/models/Project.js:14 | an array of such tasks validates to the same array |
| Models.NewProjectOfStored | backend/models/Project.js:11-19 | a project whose tasks are as the schema creates them, sent back with its declared fields and its creation time, validates to the same project |
| UserStats.Mean | backend/routes/auth.js:23-26 | the mean of no values is 0; otherwise mean times count equals the sum |
| UserStats.MeanBounds | backend/routes/auth.js:23-26 | the mean of a non-empty list lies between any lower and upper bound of its elements |
| UserStats.AverageRating | backend/routes/auth.js:23-26 | a missing or empty ratings list averages 0; otherwise the average times the count equals the sum of the scores |
| UserStats.AverageRatingInRange | backend/routes/auth.js:23-26 | when every score is in the schema range 1..5, a non-empty average lies in [1, 5] |
| UserStats.TaskCounters | backend/routes/auth.js:114-132 | the loop counts every task of every project, the completed ones, and the completed ones finished by their deadline; on-time ≤ completed ≤ total |
| UserStats.SkillCounts | backend/routes/auth.js:140-151 | the keys are exactly the skills that occur in some task, and each key maps to its number of occurrences |
| UserStats.DistinctSkills | backend/routes/auth.js:140-151 | every skill that occurs, each once, ordered by the position of its first occurrence (the insertion order of the distribution object) |
| UserStats.SkillCountsTotal | backend/routes/auth.js:140-151 | the counts of the distribution add up to the total number of skill entries |
| UserStats.Entries | backend/routes/auth.js:30-34 | flattening visits every task of every project, in order, once |
| UserStats.RecentActivity | backend/routes/auth.js:29-36 | the list is produced exactly when every task has an update time, else a server error; it holds min(5, n) entries, the i-th being the (n-1-i)-th task, so the last five are newest first |
| UserStats.UserStatsResponse | backend/routes/auth.js:101-168 | an unknown user gives 404 and a task without an update time gives 500; otherwise the response holds the number of all tasks and of completed tasks, the rounded on-time percentage of completed tasks (within 0..100, 0 when nothing is completed), the skill distribution, the mean rating, the recent-activity list and the stored streak |
| UserStats.CollaboratorTaskCount | backend/routes/auth.js:218-238 | the count is the number of tasks, over all projects, that list the user as a collaborator; it never exceeds the number of tasks and is 0 exactly when no task lists the user |
| UserStats.CollaboratorOnTimeRate | backend/routes/auth.js:247-274 | over the tasks listing the user as a collaborator, completed or not, the rounded percentage finished on time; within 0..100 and 0 when there are none |
| UserStats.PrefilterKeepsTasks | backend/routes/auth.js:245-256 | preselecting the projects that hold one of the user's tasks leaves the user's tasks unchanged |
| UserStats.CollaboratorRateIgnoresPrefilter | backend/routes/auth.js:245-274 | the on-time rate is the same whether or not the projects are first narrowed to those holding one of the user's tasks |
| UserStats.TaskCountIsRateDenominator | backend/routes/auth.js:224-231 | the collaborator task count is the on-time rate's denominator, so a zero count means a zero rate |
| Percent.RoundPercent | backend/routes/auth.js:135-137 | the integer formula equals Math.round of 100·part/whole; the result is 0 for part 0, 100 for part = whole, and within 0..100 when part ≤ whole |
| Percent.Rate | backend/routes/auth.js:274 | the percentage is 0 for an empty denominator and Math.round of 100·part/whole otherwise, within 0..100 when part ≤ whole |
| SkillValidation.ValidateSkill | backend/routes/auth.js:175-187 | a skill is accepted exactly when it is an object whose name is a non-blank string and whose percentage is a number in [0, 100]; the stored name is the trimmed name, non-empty and trimmed, and the percentage is kept |
| SkillValidation.AddSkill | backend/routes/auth.js:170-201 | an invalid skill is a 400 error; a valid one is appended to the found user's skills with everything else unchanged |
| Streak.NextStreak | backend/routes/auth.js:298-326 | the first update starts at 1; a gap of one day extends the streak, a longer gap restarts it at 1, the same day or an earlier date leaves it; the last date becomes today |
| Streak.NextStreakKeepsInv | backend/routes/auth.js:307-326 | once any update has happened the streak is at least 1, and every update keeps it so |
| Streak.NextStreakSameDay | backend/routes/auth.js:314-315 | a second update on the same day changes nothing |
| Streak.ReplayConsecutive | backend/routes/auth.js:316-318 | n updates on n consecutive days continuing a streak add n to it |
| Streak.ConsecutiveDaysStreak | backend/routes/auth.js:307-322 | after no update or a gap of more than a day, n updates on consecutive days leave a streak of exactly n |
| Streak.ClampScores | backend/routes/auth.js:288-296 | each score below 1 becomes 1, every other score and every other field is kept, and the length is unchanged |
| Streak.ClampScoresIdempotent | backend/routes/auth.js:288-296 | cleaning an already cleaned list changes nothing |
| Streak.ClampScoresRange | backend/routes/auth.js:288-296 | with scores at most 5 every cleaned score is in 1..5, and a list that is already valid is left as it is |
| Streak.UpdateStreak | backend/routes/auth.js:283-335 | an unknown user is a 404; a score above 5, which the clean-up leaves in place, makes the save fail with nothing stored; otherwise the saved user has the cleaned ratings, all within 1..5, and the advanced streak and last date, and nothing else changes |
| Ranking.Weighted | backend/routes/auth.js:366-381 | no ratings give 0; otherwise (v + 5)·w = v·R + 5·C, the confidence-weighted blend of the own mean R and the global mean C |
| Ranking.WeightedBetween | backend/routes/auth.js:368-378 | a rated user's weighted rating lies between min(R, C) and max(R, C) |
| Ranking.WeightedMonotoneInMean | backend/routes/auth.js:373-376 | for a fixed number of ratings a higher own mean never gives a lower weighted rating |
| Ranking.WeightedApproachesOwnMean | backend/routes/auth.js:347-376 | above the global mean, more ratings move the weighted rating strictly closer to, and still strictly below, the own mean |
| Ranking.FewHighRatingsRankBelowManyGoodOnes | backend/routes/auth.js:347-376 | with C = 3.5, a single 5-star rating weighs 3.75, below ten 4-star ratings |
| Ranking.Annotate | backend/routes/auth.js:353-365 | each user gains their rating count, their mean rating and their weighted rating, one entry per user, in order |
| Ranking.Insert | backend/routes/auth.js:382 | inserting into a descending list keeps it descending and adds exactly the one element |
| Ranking.SortDesc | backend/routes/auth.js:382 | the result is sorted by non-increasing weighted rating and is a permutation of the input |
| Ranking.RankUsers | backend/routes/auth.js:341-383 | the response is a permutation of the annotated users, computed with the pooled global mean, sorted by non-increasing weighted rating |
| Ranking.AllScoresValid | backend/routes/auth.js:341-345 | when every stored score is in 1..5 so is every pooled score |
| Ranking.WeightedRatingInRange | backend/routes/auth.js:341-383 | when every stored score is in 1..5, every rated user's weighted rating is in [1, 5] |
| RoomRelay.Join | backend/server.js:44-47 | joining adds the socket to that room and leaves every other room's members unchanged |
| RoomRelay.Leave | backend/server.js:49-52 | leaving removes the socket from that room and leaves every other room's members unchanged |
| RoomRelay.JoinIdempotent | backend/server.js:44-47 | joining twice is joining once |
| RoomRelay.LeaveIdempotent | backend/server.js:49-52 | leaving twice is leaving once |
| RoomRelay.LeaveUndoesJoin | backend/server.js:44-52 | a socket that joins a room it was not in and then leaves restores the membership map |
| RoomRelay.Connect | backend/server.js:41 | a connecting socket becomes a member of the room named by its own id, and no other room changes |
| RoomRelay.ConnectOwnRoomOnly | backend/server.js:41 | a socket whose id names no room yet is, once connected, the only member of its id room |
| RoomRelay.DisconnectAll | backend/server.js:65-68 | a disconnecting socket leaves every room, every other member stays, and no empty room is kept |
| RoomRelay.ChatLine | backend/server.js:60 | the chat line is the username, then ": ", then the message |
| RoomRelay.Broadcast | backend/server.js:55 | a delivery happens exactly to each room member that is not in the room named by the sender's id, with the given event |
| RoomRelay.Handle | backend/server.js:44-85 | join and leave change the sender's membership of that room; disconnect removes the sender from every room; relayed events leave membership alone; a relayed event is delivered, translated, exactly to the members of the room it names that are not in the sender's id room; join, leave and disconnect deliver nothing |
| RoomRelay.RoomIsolation | backend/server.js:54-85 | no relayed event reaches a socket outside the room it names |
| RoomRelay.SenderExcluded | backend/server.js:54-85 | a sender still in its own id room never receives its own event; a sender that left its id room and is in the target room does |
| RoomRelay.IdRoomMembersExcluded | backend/server.js:54-85 | a socket that joined the room named by the sender's id receives nothing from that sender |
| RoomRelay.IdRoomReachesSocket | backend/server.js:54-85 | an event sent to the room named by another socket's id reaches that socket |
| RoomRelay.OutsiderReachesRoom | backend/server.js:54-85 | when both sockets are alone in their id rooms, a socket outside a room reaches all of its members, exactly as a member reaches the others: relaying never checks the sender's membership |
| RoomRelay.ChatLineDelivered | backend/server.js:59-63 | a chat message reaches every member of its room outside the sender's id room as the line "username: message" |
| RoomRelay.CodeChangeDropsFileId | backend/server.js:54-56 | the file id of a code change does not affect what is delivered |
| RoomRelay.TranslatedNames | backend/server.js:54-85 | each relayed event goes out under its outbound name (code-update, receive-message, file-created, file-renamed, file-deleted, console-output) |
| RoomRelay.RunKeepsNoEmptyRooms | backend/server.js:44-68 | any sequence of events keeps the membership map free of empty rooms |
| RoomRelay.RunOnlyMovesSenders | backend/server.js:44-68 | a socket's membership changes only through its own events |
| Workspace.LanguageOf | frontend/src/pages/CollaborationWorkspace.js:81-97 | a language other than JavaScript is chosen only by its own extension (py, java or cpp); every other extension falls back to JavaScript |
| Workspace.LanguageOfExtension | frontend/src/pages/CollaborationWorkspace.js:81-97 | each language's own extension selects it, and a non-JavaScript language is selected by its extension only |
| Workspace.Extension | frontend/src/pages/CollaborationWorkspace.js:80 | the extension is the lower-cased dot-free tail of the name, and it is either the whole name or preceded by a dot |
| Workspace.DetectLanguage | frontend/src/pages/CollaborationWorkspace.js:79-98 | a language other than JavaScript is detected only when the name's extension is that language's own; DetectByExtension and PythonByName give the converse |
| Workspace.DetectByExtension | frontend/src/pages/CollaborationWorkspace.js:79-98 | for a name ending in a dot and a dot-free extension, the extension is the lower-cased tail and it picks the language |
| Workspace.PythonByName | frontend/src/pages/CollaborationWorkspace.js:85-87 | any name ending in ".py" is detected as Python |
| Workspace.DetectWithoutDot | frontend/src/pages/CollaborationWorkspace.js:80 | a name without a dot is its own extension, lower-cased |
| Workspace.JudgeId | frontend/src/pages/CollaborationWorkspace.js:225-238 | the Judge0 id is one of 63, 71, 62 and 50 |
| Workspace.JudgeIdInjective | frontend/src/pages/CollaborationWorkspace.js:225-238 | different languages get different Judge0 ids |
| Workspace.LanguageIdAsWrittenIsConstant | frontend/src/pages/CollaborationWorkspace.js:225-238 | as written, the switch would give the right id for a stored factory, but for the support object React stores in its place it gives 63 for every language |
| Workspace.LanguageIdAsWritten | frontend/src/pages/CollaborationWorkspace.js:225-238 | the switch as written gives a stored factory its language's id and the support object 63, whatever its language |
| Workspace.PythonFileRunsAsJavaScript | frontend/src/pages/CollaborationWorkspace.js:83-95 | as written, a ".py" file is detected as Python, yet the support object stored for it is submitted with id 63, not Python's 71 |
| Workspace.Initial | frontend/src/pages/CollaborationWorkspace.js:17-23 | the page starts with the placeholder code, no messages, files or selection, and JavaScript |
| Workspace.HandleCodeChange | frontend/src/pages/CollaborationWorkspace.js:100-105 | an edit always replaces the local code, and a code change is emitted exactly when a file is selected, naming the task room, the code and the file |
| Workspace.SendMessage | frontend/src/pages/CollaborationWorkspace.js:107-113 | a blank draft changes nothing; otherwise the own log gains exactly the chat line, the draft is cleared and the message emitted to the task room |
| Workspace.OnCodeUpdate | frontend/src/pages/CollaborationWorkspace.js:64-66 | a peer's code replaces the local code and nothing else |
| Workspace.OnReceiveMessage | frontend/src/pages/CollaborationWorkspace.js:68-70 | a received line is appended at the end of the log, nothing else changes |
| Workspace.LoadFiles | frontend/src/pages/CollaborationWorkspace.js:45-55 | a failed fetch changes nothing; otherwise the list is replaced and, when non-empty, its first file is selected with its content and language; no other part of the page state changes |
| Workspace.CreateFile | frontend/src/pages/CollaborationWorkspace.js:115-132 | a cancelled or empty name or a failed request changes nothing; otherwise the created file is appended, selected, and its content and language loaded; no other part of the page state changes |
| Workspace.Find | frontend/src/pages/CollaborationWorkspace.js:135 | the search finds nothing exactly when no file has the id, and otherwise the first file with it |
| Workspace.SelectFile | frontend/src/pages/CollaborationWorkspace.js:134-141 | an unknown id changes nothing; otherwise the first file with that id is selected, with its content and language; the file list and the rest of the page state are unchanged |
| Workspace.SaveCode | frontend/src/pages/CollaborationWorkspace.js:143-151 | a save request is made exactly when a file is selected, carrying the task, the selected file and the current code |
| Workspace.RenameKeepsShape | frontend/src/pages/CollaborationWorkspace.js:168-172 | renaming keeps length and order and changes only the name of the entries with the id |
| Workspace.RenameFile | frontend/src/pages/CollaborationWorkspace.js:158-177 | a cancelled or empty name or a failed request changes nothing; otherwise the list takes the server's name and the editor language follows it, whichever file is selected |
| Workspace.Remove | frontend/src/pages/CollaborationWorkspace.js:187 | removal keeps an order-preserving subsequence in which no entry has the id |
| Workspace.RemoveExactly | frontend/src/pages/CollaborationWorkspace.js:187 | exactly the entries with the id are dropped; every other entry keeps its multiplicity |
| Workspace.RemoveAfterRename | frontend/src/pages/CollaborationWorkspace.js:168-187 | deleting a file after renaming it leaves the same list as deleting it directly |
| Workspace.DeleteFile | frontend/src/pages/CollaborationWorkspace.js:179-195 | an unconfirmed or failed delete changes nothing; otherwise the file leaves the list, and if it was selected the selection clears and the code resets to the placeholder; the language and everything else stay as they were |
| Workspace.RunRequest | frontend/src/pages/CollaborationWorkspace.js:197-207 | blank code is not submitted; otherwise the code is submitted under the Judge0 id of the editor language. This is the corrected id: the code as written always sends 63 (see Findings) |
| Workspace.RunsInOpenedLanguage | frontend/src/pages/CollaborationWorkspace.js:197-238 | once a ".py" file with code is opened, running submits its content under Python's id 71 |
| Workspace.EditReachesPeers | frontend/src/pages/CollaborationWorkspace.js:100-105 | with a file selected, an edit reaches every client in the task room outside the author's id room, and leaves the same code in its editor |
| Workspace.ChatLinesAgree | frontend/src/pages/CollaborationWorkspace.js:107-113 | a sent message reaches every client in the room outside the author's id room as the very line the author's own log gains |
| ProjectForm.InitialTasks | frontend/src/pages/ProjectCreate.js:10 | the form starts with exactly one task whose fields are all empty |
| ProjectForm.Set | frontend/src/pages/ProjectCreate.js:16 | setting a field changes that field and no other |
| ProjectForm.ChangeTask | frontend/src/pages/ProjectCreate.js:14-18 | a change touches only the named field of the task at the index; an index out of range changes nothing |
| ProjectForm.AddTask | frontend/src/pages/ProjectCreate.js:20-22 | adding appends one blank task and keeps the earlier ones |
| ProjectForm.RemoveTask | frontend/src/pages/ProjectCreate.js:24-27 | removing drops exactly the task at the index and keeps the order of the rest; an index out of range changes nothing |
| ProjectForm.RemoveUndoesAdd | frontend/src/pages/ProjectCreate.js:20-27 | removing the task just added gives back the previous list |
| ProjectForm.FormatSkills | frontend/src/pages/ProjectCreate.js:37 | the skills string yields one piece more than it has commas; with TrimAll, each piece is the trimmed text between two commas |
| ProjectForm.TrimAll | frontend/src/pages/ProjectCreate.js:37 | one piece per input piece, each the trim of the corresponding piece |
| ProjectForm.FormatSkillsClean | frontend/src/pages/ProjectCreate.js:37 | every formatted skill is trimmed and free of commas |
| ProjectForm.EmptySkillsField | frontend/src/pages/ProjectCreate.js:37 | an empty skills field gives a single empty skill |
| ProjectForm.FormatSkillsOfJoin | frontend/src/pages/ProjectCreate.js:37 | trimmed, comma-free names joined by a comma and any whitespace come back unchanged |
| ProjectForm.FormatTask | frontend/src/pages/ProjectCreate.js:35-38 | title, role and deadline are kept, and the skills string becomes the trimmed comma-separated pieces, one more than there are commas |
| ProjectForm.FormatTaskOfJoin | frontend/src/pages/ProjectCreate.js:35-38 | a task whose skills field lists trimmed, comma-free names separated by commas and whitespace is posted with exactly those names |
| ProjectForm.FormatTasks | frontend/src/pages/ProjectCreate.js:35-38 | every task is formatted, one result per task, in order |
| UserCards.RenderStars | frontend/src/pages/AllUsers.js:32-54 | floor(rating) full stars (none below 0) followed by 5 − floor(rating) empty ones (none below 0); star i is full exactly when i < floor(rating) |
| UserCards.CardAverage | frontend/src/pages/AllUsers.js:82-85 | 0 for a missing or empty rating list, otherwise the value whose product with the count is the sum of the scores; CardAverageAgrees ties it to the server's average |
| UserCards.FiveStars | frontend/src/pages/AllUsers.js:32-54 | a rating in [0, 5] shows exactly five stars, floor(rating) of them full |
| UserCards.CardAverageAgrees | frontend/src/pages/AllUsers.js:82-85 | the card's mean rating equals the server's average rating and the ranking's mean R |
| UserCards.CardShowsFiveStars | frontend/src/pages/AllUsers.js:115-124 | with scores in the schema range every card shows exactly five stars |
| UserCards.ToFixed0 | frontend/src/pages/AllUsers.js:93 | toFixed(0) rounds halves away from zero: Math.round for non-negative values, mirrored for negative ones |
| UserCards.OrZero | frontend/src/pages/AllUsers.js:88-90 | a stored counter is used as it is and a missing one counts as 0 |
| UserCards.CompletionOf | frontend/src/pages/AllUsers.js:88-93 | missing counters count as 0, the total is completed + overdue, the rate is 0 without tasks and otherwise the rounded share of completed tasks in 0..100 |
| UserCards.CompletionOfStoredUser | frontend/src/pages/AllUsers.js:88-93 | for stored non-negative counters the rate is within 0..100 and 100 when nothing is overdue |
| SkillForm.UnsignedDecimal | frontend/src/components/UsersDashboard.js:87 | a decimal numeral denotes a non-negative value |
| SkillForm.ParseNumber | frontend/src/components/UsersDashboard.js:87 | Number() of a blank string is 0 |
| SkillForm.ParseNumeral | frontend/src/components/UsersDashboard.js:87 | Number() of any decimal numeral gives back its value |
| SkillForm.ParseNegativeNumeral | frontend/src/components/UsersDashboard.js:87-88 | a leading minus negates the numeral, so a negative percentage reaches the range check as a negative number |
| SkillForm.ParseIgnoresLeadingSpace | frontend/src/components/UsersDashboard.js:87 | white space before the input does not change the number it reads as |
| SkillForm.Check | frontend/src/components/UsersDashboard.js:82-91 | the required message appears exactly when a field is blank, the range message exactly when the percentage is not a number in [0, 100]; an accepted form carries the trimmed name and the parsed percentage |
| SkillForm.ServerAcceptsRequest | frontend/src/components/UsersDashboard.js:98-102 | a request with a trimmed non-empty name and an in-range percentage passes the server's validator, which stores it unchanged |
| SkillForm.AcceptedFormPassesServer | frontend/src/components/UsersDashboard.js:98-102 | every request the form sends passes the server's skill validation, which stores the same name and percentage |
| SkillForm.Submit | frontend/src/components/UsersDashboard.js:79-114 | a rejected form shows its message; a failed request keeps the inputs and shows the failure message; success clears both inputs and the error, hides the form and takes the returned skills |
| SkillForm.SubmitKeepsOrClearsInputs | frontend/src/components/UsersDashboard.js:105-113 | after a submission the inputs are either exactly as typed or both cleared |
| SkillForm.ChartMinWidth | frontend/src/components/UsersDashboard.js:243 | the chart is at least 1200 px and 200 px per skill wide, and equals one of the two |
| StarRating.Click | frontend/src/components/Rating.js:33 | clicking a star makes the rating that star's number, a valid score |
| StarRating.Clicks | frontend/src/components/Rating.js:30-33 | after any clicks the rating is the last star clicked, and the initial rating without clicks |
| StarRating.Highlights | frontend/src/components/Rating.js:34 | there are five stars and star s is highlighted exactly when s ≤ rating |
| StarRating.HighlightCount | frontend/src/components/Rating.js:34 | exactly `rating` stars are highlighted |
| StarRating.Submit | frontend/src/components/Rating.js:7-15 | the posted body carries the task, the collaborator and the current rating unchanged |
| StarRating.SubmittedScoreValid | frontend/src/components/Rating.js:5-15 | the submitted score is in the schema range exactly when some star was clicked; without a click 0 is sent |
| Applicants.Loaded | frontend/src/components/ApplicantsPage.js:10-29 | a failed fetch leaves the list empty; otherwise it is the returned list |
| Applicants.Accept | frontend/src/components/ApplicantsPage.js:31-47 | a failed accept changes nothing; a successful one removes every applicant with the id and keeps the others in order |
| Applicants.AcceptKeepsOthers | frontend/src/components/ApplicantsPage.js:43 | an applicant with another id survives any accept |
| Applicants.AcceptAllShrinks | frontend/src/components/ApplicantsPage.js:31-47 | after any sequence of accepts the list is an order-preserving sub-list of the loaded one, without any applicant accepted successfully |
| Text.Trim | backend/routes/auth.js:180 | trimming gives the empty string exactly for blank input, never starts or ends with whitespace, and is no longer than the input |
| Text.TrimIsInfix | backend/routes/auth.js:180 | the trimmed string is a contiguous part of the input with only whitespace around it |
| Text.TrimIdempotent | backend/routes/auth.js:192 | trimming a trimmed string changes nothing |
| Text.Split | frontend/src/pages/ProjectCreate.js:37 | split gives one piece more than there are separators, and no piece contains the separator |
| Text.JoinOfSplit | frontend/src/pages/ProjectCreate.js:37 | joining the pieces with the separator gives back the string |
| Text.SplitJoin | frontend/src/pages/ProjectCreate.js:37 | splitting separator-free pieces joined by the separator gives back the pieces |
| Text.LastPiece | frontend/src/pages/CollaborationWorkspace.js:80 | the last piece is the longest separator-free suffix |
| Text.LastPieceIsSuffix | frontend/src/pages/CollaborationWorkspace.js:80 | the last element of split is that suffix |
| Text.Lower | frontend/src/pages/CollaborationWorkspace.js:80 | lower-casing maps each character and keeps the length |
| Seqs.NewestFirst | backend/routes/auth.js:35 | the last k elements (fewer if shorter), newest first |
| Seqs.Filter | frontend/src/components/ApplicantsPage.js:43 | filtering keeps an order-preserving subsequence of elements that pass the test |
| Seqs.FilterMembership | frontend/src/components/ApplicantsPage.js:43 | an element survives filtering exactly when it was there and passes the test |

## Left out

- The HTTP and database layers are parameters, not part of the model:
  - Express routing and the JWT, bcrypt, register and login paths;
  - the regex `/search-users` route;
  - Mongoose `find`, `populate`, `aggregate` and `save`.

  Each query result is an input list, each response an output value, and a failed request `None`.
- The `/:id` route variants (backend/routes/auth.js:407-540) are left out. They repeat the computations of `/user-stats`, `/completed-task-count`, `/collaborator-task-count` and `/collaborator-on-time-rate` for an id taken from the URL. `/user-stats/:id` also omits the activity list.
- `/completed-task-count` only returns the stored `completedTasks` field, so there is nothing to compute.
- Schema casting is not modelled, e.g. the `{name, percentage}` object pushed into the `skills: [String]` array. Skills are stored as the add-skill route intends.
- Route mismatches in the client are not modelled; the server's answer is a parameter:
  - the dashboard posts to `/auth/add-skill/:id` while the server defines `/add-skill`;
  - the star selector posts to `/projects/rate`, which no shown route defines.
- RoomRelay.Handle: only well-formed payloads whose fields are strings are modelled. The handlers check nothing, which has three effects the model leaves out:
  - an event sent without a payload makes the destructuring throw a TypeError inside the listener, and socket.io does not catch it;
  - a missing field is relayed as `undefined`, or turns the chat line into "undefined: …";
  - a room or task id sent as an array makes `socket.join` and `socket.to` address every listed room, beyond the single room that `RoomRelay.RoomIsolation` speaks of.
- Socket.io transport is not modelled: delivery order, reconnection, and the skipping of room members whose connection is already gone. Joining the id room on connection and leaving every room on disconnection are modelled (`RoomRelay.Connect`, `RoomRelay.DisconnectAll`); the `disconnect` handler itself only logs.
- The workspace client never emits `file-created`, `file-renamed`, `file-deleted` or `console-output`, and does not listen for them. The relay models them; the client does not.
- The Judge0 HTTP submission, its polling and the output panel (frontend/src/pages/CollaborationWorkspace.js:197-263) are left out. Only the request (`Workspace.RunRequest`) is modelled.
- The username fetch and the JSX rendering, styling and navigation of every page are left out.
- Streak.NextStreak: dates are whole day numbers. The source subtracts local-midnight `Date`s, where a daylight-saving change can produce a fractional gap such as 1.04 days; that would reset the streak.
- UserStats.RecentActivity: the activity date is the update day number rather than the ISO date string it is formatted as.
- UserStats.SkillCounts: the route counts into a plain object literal, and the model is a map that starts empty. The model leaves out three effects of that object:
  - a skill named like an inherited property (`constructor`, `toString`, `valueOf`, …) starts from that function instead of 0, so its count becomes a string;
  - a skill named `__proto__` is dropped;
  - integer-like skills such as `"10"` and `"2"` are listed first, in ascending order, rather than in insertion order.
- Streak.UpdateStreak: scores are whole numbers and always present. The schema also admits fractional scores (a score of 0.5 is raised to 1) and ratings without a score (the clean-up leaves them alone, and the save accepts them); neither is modelled.
- Means, percentages and weighted ratings are exact `real`s, not IEEE doubles. `toFixed` is modelled as its integer value, not its string.
- SkillForm.ParseNumber: models `Number()` only for blank strings and optionally signed decimal numerals with an optional fraction. Exponents, hexadecimal, binary and octal prefixes and `Infinity` give NaN here.
- Text.Lower: lower-cases the ASCII letters only; extensions outside ASCII are compared unfolded.
- Ranking.SortDesc: states sortedness and permutation only. MongoDB leaves the order of equal weighted ratings unspecified, and so does the model.
- ProjectForm.ChangeTask: the source shallow-copies the task array and then assigns into the shared task object. With immutable values the previous state is never changed, so that aliasing is not modelled.
- Task fields that the statistics routes read but the task schema does not declare are modelled as optional fields: the completion date, the collaborators and the update time.

## Findings

| source | as written | input that shows it | evidently intended | confidence | as-written member | corrected member |
|---|---|---|---|---|---|---|
| frontend/src/pages/CollaborationWorkspace.js:23, 83-95, 225-238 | The page passes the language factories (`javascript`, `python`, …) to `useState` and to the setter. React calls a function argument, so the state holds the support object that the factory builds. `getLanguageId` compares that object against the factories, so no case matches and it always falls back to 63 (JavaScript). | Open a file named `main.py`. The extension is detected as Python, but running submits `language_id` 63. | The run uses the opened file's language: 71 for `main.py`. | not executed | Workspace.PythonFileRunsAsJavaScript | Workspace.RunsInOpenedLanguage |

The as-written half rests on one fact about React that the model takes as given rather than proves: a function passed to `useState` or to a state setter is called, and its result is stored. `Workspace.LanguageValue` records this by letting the language state hold `Support(l)`, the object the factory builds, and never `Factory(l)`.
