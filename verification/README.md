# Portfolio site: visit tracking and dashboard statistics

A Dafny model of the request tracking, the dashboard statistics and the
state changes of a Django portfolio site (package `portfolio`). It covers:

- the visitor-tracking middleware, which runs the downstream handler and then appends one `SiteVisit` row per non-admin request, or none when that fails;
- the operator dashboard and its two JSON endpoints: counts over calendar-day windows, the top-5 rankings and the 7-day chart series;
- the small entity transitions: `increment_views`, `mark_as_read`, `mark_message_read`, the `SiteSettings` singleton guard;
- the project listing filters, the CV file name, the priority badge table, and the models' default orderings.

Everything is pure functions over immutable records:

- The store is a `Db` of sequences, one per table, in insertion order.
- An instant is an integer number of seconds. `DayOf` maps it to an integer calendar day.
- The current day (`today`) and the current instant (`now`) are parameters.
- The downstream handler of the middleware is a function parameter `(Request, log) -> (response, log)`.

Modules, leaves first:

- `Base`: option type, counting, search, filtering, distinct elements.
- `Text`: `startswith`, `split(',')[0]`, slicing, `replace`.
- `Sorting`: a stable insertion sort over a comparator, and `order_by(...)[:n]`.
- `Models`: the entities, single-field updates, defaults, badge classes and `Meta.ordering` comparators.
- `Settings`: `SiteSettings.save` and `first()`.
- `Http`: the request and `get_client_ip`.
- `Middleware`: `VisitorTrackingMiddleware.__call__`.
- `Stats`: `dashboard`, `api_stats`, `api_chart_data`.
- `Views`: `home`, `projects`, `project_detail`, `contact`, `mark_message_read`, `download_cv`.

Two behaviours of the code are worth stating up front:

- The week window counts every visit dated on or after `today - 7`: eight calendar days, with no upper bound. `Stats.ChartData` states the exact relation: the chart's seven counts, plus day `today - 7`, plus any visit dated after today, equal `visits_week`.
- The visit is recorded after the handler returns. `Middleware.Call` appends the record after everything the handler wrote.

## Model

| member | source | states |
|---|---|---|
| `Http.ClientIp` | portfolio/views.py:15-22 | with a non-empty `X-Forwarded-For`, the address is the untrimmed, comma-free prefix of the header that ends at its first comma or at its end; otherwise it is `REMOTE_ADDR`, possibly missing |
| `Text.BeforeFirstComma` | portfolio/views.py:19 | `split(',')[0]` is a comma-free prefix of the text that stops at its first comma, or is the whole text when there is none |
| `Text.Truncate` | portfolio/middleware.py:21 | `[:500]` gives a prefix of the header of length `min(len, 500)` |
| `Text.SpacesToUnderscores` | portfolio/views.py:225 | `replace(" ", "_")` keeps the length, maps each space to `_`, keeps every other character, and leaves no space |
| `Middleware.RecordFor` | portfolio/middleware.py:12-24 | a record exists exactly when the request has a session and an address; its address is the one `get_client_ip` derives, its page is `request.path`, its stamp is `now`, its user agent is a prefix of the header of at most 500 characters (`''` when missing), and its session key is the key or `''` |
| `Middleware.Call` | portfolio/middleware.py:7-28 | the response is the handler's, whatever happens; the log is the handler's log, or that log plus one record appended last; admin paths add nothing; a non-admin request whose record can be built and stored adds exactly that record; a failure adds nothing |
| `Middleware.AdminWithoutSlashIsTracked` | portfolio/middleware.py:11 | `/admin` without the trailing slash is not skipped: it is tracked |
| `Middleware.CallKeepsChronological` | portfolio/middleware.py:19-24 | stamping the record with the current instant keeps the log in non-decreasing timestamp order |
| `Models.DayOf` | portfolio/views.py:157 | the `__date` of an instant is the day whose 86400-second span holds it |
| `Models.IncrementViews` | portfolio/models.py:64-66 | `views` goes up by one, and no other field changes |
| `Models.IncrementViewsTimesAddsN` | portfolio/models.py:64-66 | `n` sequential increments add exactly `n` and change nothing else |
| `Models.NewProjectViews` | portfolio/models.py:48-54 | a new project is completed, not featured, has order 0, and after `n` views shows exactly `n` |
| `Models.MarkAsRead` | portfolio/models.py:118-120 | `read` becomes true, and no other field changes |
| `Models.MarkAsReadIdempotent` | portfolio/models.py:118-120 | marking a message read twice is the same as marking it once |
| `Models.NewContactDefaults` | portfolio/models.py:100-104 | a new message is unread and unanswered, and its priority is `medium` unless one is given |
| `Models.PriorityBadgeClass` | portfolio/models.py:122-129 | the map is total; the answer is one of five classes, and `bg-secondary` is returned exactly for priorities outside low/medium/high/urgent |
| `Models.AdminPriorityColor` | portfolio/admin.py:58-65 | the admin colour falls back to grey exactly for priorities outside the four known ones |
| `Models.PriorityBadgesDistinct` | portfolio/models.py:122-129 | the four priorities get four different badge classes and four different admin colours |
| `Models.DefaultOrderingsArePreorders` | portfolio/models.py:57 | the default orderings of projects, messages (line 111), visits (line 201) and experiences (line 79) are total preorders |
| `Models.ProjectOrderLexicographic` | portfolio/models.py:57 | in default project order, featured projects come first, then `order` ascending, then newest `created_at` first |
| `Models.InDefaultOrder` | portfolio/models.py:56-57 | the table read in default order is a permutation of the table, sorted by the project comparator |
| `Sorting.Insert` | portfolio/views.py:162 | inserting one element into a list adds exactly that element |
| `Sorting.Sort` | portfolio/views.py:162 | the ordered list is a permutation of its input |
| `Sorting.SortSorted` | portfolio/views.py:162 | for a total-preorder comparator, the ordered list is sorted |
| `Sorting.TopNRanks` | portfolio/views.py:162 | `order_by(...)[:n]` is sorted, and no element left out ranks ahead of the last one kept |
| `Sorting.SortedFilter` | portfolio/views.py:29 | filtering an ordered queryset keeps it ordered |
| `Settings.Write` | portfolio/models.py:231 | saving under an existing key updates that row in place and leaves the rest alone; saving under an unknown key appends the row |
| `Settings.Save` | portfolio/models.py:228-231 | a save is rejected, with the fixed message, exactly when the instance has a falsy key and a row already exists; an accepted save always leaves a row holding the saved value; a new instance saved into an empty table gives one row; a save under an existing key keeps the length, rewrites the rows with that key to the new value and leaves every other row unchanged; a save under a non-zero key not yet in use appends exactly that row |
| `Settings.SaveKeepsOneRowForNewOrExisting` | portfolio/models.py:228-231 | a save with no key, key 0 or an existing key keeps the table at one row at most |
| `Settings.SaveAdmitsSecondRow` | portfolio/models.py:229 | an instance that carries the unused key 2, saved into a table holding row 1, is accepted and makes a second row |
| `Settings.SaveSingleton` | portfolio/models.py:228-231 | the guard as its message intends: every save that would add a row to a non-empty table is rejected, and the one-row invariant always holds |
| `Settings.SaveAllKeepsOneRow` | portfolio/models.py:228-231 | any sequence of guarded saves keeps the settings table at one row at most |
| `Settings.First` | portfolio/views.py:24-25 | `first()` is absent exactly when the table is empty; otherwise it is the row with the least key |
| `Stats.SinceMono` | portfolio/views.py:154-159 | a window that starts earlier counts at least as many visits |
| `Stats.WindowsNest` | portfolio/views.py:153-159 | `visits_today <= visits_week <= visits_month <=` the number of visits |
| `Stats.SinceSplit` | portfolio/views.py:157-158 | visits dated on or after `d` are those of day `d` plus those dated on or after `d + 1` |
| `Stats.DailyCountsSum` | portfolio/views.py:209-213 | the counts of consecutive days, plus everything after them, add up to the window starting on the first of those days |
| `Stats.CollectDays` | portfolio/views.py:209-213 | after the loop over `range(n)`, both lists have `n` entries, and entry `k` holds the label and the visit count of day `today - k` |
| `Stats.ChartData` | portfolio/views.py:203-218 | seven labels and seven counts, oldest first; entry `j` belongs to day `today - (6 - j)`; the counts plus day `today - 7` plus later-dated visits equal `visits_week`, and equal it without the later term when no visit is dated after today |
| `Stats.ChartSum` | portfolio/views.py:195 | the daily counts of the `n` days ending today, plus the day before them, plus anything dated after today, make up the window that opens `n` days before today; with `n = 7` that window is `visits_week` |
| `Stats.NoLaterVisits` | portfolio/views.py:158 | when no visit is dated after today, the open-ended part of the week window beyond today is empty |
| `Stats.TopProjects` | portfolio/views.py:162 | at most 5 projects, drawn from the table, with non-increasing views; no project left out has more views than the last one shown |
| `Stats.RecentMessages` | portfolio/views.py:165 | at most 5 messages, drawn from the table, newest first; no message left out is newer than the last one shown |
| `Stats.LoggedPageVisited` | portfolio/views.py:168-169 | a page present in the log has a count of at least one |
| `Stats.PageCounts` | portfolio/views.py:168-169 | one row per distinct logged page, and each row's count is that page's number of visits |
| `Stats.PageCountsCoverLog` | portfolio/views.py:168-169 | every logged page has its row |
| `Stats.PopularPages` | portfolio/views.py:168-170 | `[:5]` keeps exactly `min(5, number of distinct pages)` rows |
| `Stats.PopularPagesTrueCounts` | portfolio/views.py:168-170 | the popular pages are distinct and most visited first; each count equals that page's number of visits and is at least 1 |
| `Stats.PopularPagesComplete` | portfolio/views.py:168-170 | a page left out has at most the last shown count; a non-empty log shows at least one page |
| `Stats.RankedPages` | portfolio/views.py:168-170 | any cut of the page table ranked by count has the properties above, whatever the cut size |
| `Stats.PopularPagesRows` | portfolio/views.py:168-170 | the ranked rows have distinct pages and true counts |
| `Stats.PopularPagesExcluded` | portfolio/views.py:168-170 | no page left out of the ranking was visited more often than the last one kept |
| `Stats.DashboardFor` | portfolio/views.py:146-184 | project and message totals are the table sizes; unread messages are the count of contacts with `read` false; today's visits are the visits dated today, the week's are those dated on or after `today - 7` and the month's those dated on or after `today - 30`, so the windows nest; the top projects and recent messages are `min(5, table size)` entries drawn from their tables, and the popular pages `min(5, distinct pages)` rows |
| `Stats.DashboardRankings` | portfolio/views.py:161-165 | the dashboard's top projects are most viewed first and its recent messages newest first; no project left out has more views, and no message left out is newer, than the last one shown |
| `Stats.ApiStatsFor` | portfolio/views.py:188-200 | today's visits are the visits dated today, the week's those dated on or after `today - 7`, at most all visits; unread messages are the count of contacts with `read` false; the project total is the table size |
| `Stats.ApiAgreesWithDashboard` | portfolio/views.py:188-200 | the four API figures equal the dashboard's for the same store and day |
| `Stats.TrackedVisitIsCounted` | portfolio/middleware.py:19-24 | a tracked request adds exactly one visit to the day it is stamped on and one to its page, and none to other days |
| `Views.HomeProjects` | portfolio/views.py:29 | at most 3 projects, all featured and completed, drawn from the table in default order; every featured completed project left off comes no earlier in that order than the last one shown, so the page holds the first three; when fewer than 3 are shown, every featured completed project is among them |
| `Views.HomeProjectsFacts` | portfolio/views.py:29 | for any cut size `n`, the first `n` featured completed projects of the ordered table are featured, completed, ordered and drawn from the table; when fewer than `n` are shown, none was left out |
| `Views.HomeProjectsFirst` | portfolio/views.py:29 | for any cut size `n`, every featured completed project not among the first `n` of the ordered table comes no earlier in the default order than the last one kept |
| `Views.ProjectListing` | portfolio/views.py:42-63 | no archived project is listed; a non-empty status filter holds for every result; every project passing all filters is listed; the list is in default order |
| `Views.ProjectTotals` | portfolio/views.py:71-72 | completed projects number at most the total, and at least as many as the home page shows |
| `Base.Find` | portfolio/views.py:89 | `get_object_or_404(Project, slug=…)` and `Contact.objects.get(id=…)` find a row exactly when one matches; the row found matches and no earlier row does (slugs and ids are unique columns, so it is the only match) |
| `Views.ProjectDetail` | portfolio/views.py:87-90 | an unknown slug gives not-found; otherwise exactly that project's `views` rises by one and the table is otherwise unchanged |
| `Views.ViewOnceUnique` | portfolio/views.py:89-90 | when slugs are unique, a detail view bumps exactly the row with that slug, and the slugs stay unique |
| `Views.DetailViewsAddN` | portfolio/views.py:90 | `n` sequential detail views of a stored project add exactly `n` to its counter and change no other project |
| `Views.SubmitContact` | portfolio/views.py:120-127 | a valid submission appends one message carrying the form's name, e-mail, subject, message and priority, a fresh id, the client address and the full user agent; it is unread and unanswered, so the unread count rises by one |
| `Views.MarkMessageRead` | portfolio/views.py:233-242 | non-POST gives `{success: false, 'Méthode non autorisée'}` and changes nothing; an unknown id gives `{success: false, 'Message non trouvé'}` and changes nothing; otherwise `{success: true}`, with only that message marked read |
| `Views.MarkMessageReadUnread` | portfolio/views.py:236-237 | the unread count drops by one exactly when the targeted message was unread, and stays the same otherwise |
| `Views.DownloadCv` | portfolio/views.py:220-229 | there is an attachment exactly when settings exist and have a resume file; its name is `"CV_" + name.replace(" ", "_") + ".pdf"`, with no space; otherwise the notice `CV non disponible` |
| `Views.CvFilenameShape` | portfolio/views.py:225 | the file name is `CV_`, then the owner's name with each space turned into `_`, then `.pdf` |

## Findings

| source | as written | input that shows it | evidently intended | confidence | as-written member | corrected member |
|---|---|---|---|---|---|---|
| portfolio/models.py:229 | the guard rejects a save only when `not self.pk` | a table with row 1; saving an instance with `pk=2` inserts a second row | at most one settings row, as the error message says | medium, not executed | `Settings.SaveAdmitsSecondRow` | `Settings.SaveSingleton` |

In the table above, `Settings.Save` is the guard as written. `Settings.SaveSingleton` rejects every save that would add a second row, and `Settings.SaveAllKeepsOneRow` proves the invariant over any sequence of saves. The counterexample relies on Django's save semantics: a save with an explicit key updates the row, or inserts one when no row has that key. Those semantics are not in the repository's files.

## Left out

- Email notification signal (portfolio/models.py:131-191): mail sending with swallowed errors, which is I/O.
- Template rendering, the messages framework, redirects, `login_required`, `cache_page`/`cached_home`, the `about` page, and reading the CV file's bytes: all are framework behaviour or I/O.
- `Views.ProjectListing`: does not model pagination into pages of 6 (`Paginator.get_page`, library code); the whole filtered list is returned.
- `Views.ProjectListing`: the technology and search filters are an abstract predicate `extra`. Case-insensitive `icontains`, the `.distinct()` after search, and the duplicate rows that the many-to-many technology join can produce are not modelled.
- `related_projects` in `project_detail` (a many-to-many join with `distinct`): left out as ORM internals.
- Contact form validation (required fields, e-mail syntax, choice checking) belongs to Django forms; `Views.SubmitContact` takes an already validated form.
- Views.SubmitContact: the form's `phone`, `company` and `project_budget` fields, and the reply fields `reply_message` and `replied_at`, are not part of the `Contact` record; they are stored or left empty without affecting any statistic, so the new row carries only name, e-mail, subject, message and priority.
- Concurrency: the lost-update race of `increment_views` is not modelled; increments are sequential.
- Clock and time zones: `DayOf` uses whole 86400-second days rather than the deployment's local date. The per-iteration `timezone.now()` in `api_chart_data` is read once. The `'%d/%m'` label format is a function parameter.
- `Middleware.RecordFor`: the NULL-address and missing-session failures are modelled. Every other failure of the insert is the parameter `insertSucceeds` of `Middleware.Call`. That covers column-length limits enforced by some databases, an empty address stored as NULL, and a lost connection.
- IP address validation by `GenericIPAddressField`: not applied by `objects.create`, so not modelled.
- `Skill` and its `['category', 'order']` ordering: string order depends on the database collation. Skill proficiency has no enforced range.
- The 32-bit range of `IntegerField` (`views`, `order`): integers are unbounded.
- `Stats.ChartData`: labels are produced by a formatting function passed in, since date formatting is not modelled.
