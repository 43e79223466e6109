# asite job board: a verified model

This project models the core of `asite`, a Django site about data-science jobs and their feedback. It is written in Dafny 4.11.

- **Jobs app.** It has catalog tables: Category, Contract, Skill, Industry, JobTitle, Location and Candidate. It also has the `JobRecord` table, whose (job_title, work_year, company_location) triple is unique.
- **CSV import.** `import_jobs_from_csv` does get-or-create on the catalog rows of each line. It then creates one JobRecord, or counts the line as a duplicate.
- **Report queries.** `run_advanced_queries` computes:
  - the top five job titles by mean salary,
  - the mean salary per experience level,
  - the job count per company location,
  - the share of fully remote jobs.
- **Feedbacks app.** It has a `Feedbacks` table with a 1..5 rating and a creation stamp, and a `FeedbackForm` with its own `clean_rating`. Its list view searches, sorts and paginates. It also has detail, create, update and delete views.
- **Feedback app.** It provides the job picker, a per-job feedback page with an optional `min_rating` filter and a mean rating, the mean alone, and an add form.

All tables are fields of one `Store.Database` object. Each table is a sequence of `Row(id, value)`. The class invariant `Valid()` holds the constraints:
- unique columns,
- `unique_together`,
- foreign keys that resolve,
- validated ratings.

Every insert and delete method keeps the invariant. Each one states its complete effect on the tables it names in `modifies`, including the CASCADE and SET_NULL effects of `on_delete`.

Views are functions or methods that return a value: a page context, a redirect to a named route, or a 404 (`None` / `NotFound`). The models of `asite/feedbacks/views.py` and `asite/feedback/views.py` are independent. Each one reads the relevant table of the database.

Modules, in dependency order: `Tables`, `JobsModels`, `FeedbacksModels`, `Store`, `Text`, `Sorting`, `FeedbacksForms`, `Http`, `FeedbacksViews`, `AdvancedQueries`, `FeedbackViews`, `ImportJobs`.

## Model

| member | source | states |
|---|---|---|
| Store.Database.constructor | asite/jobs/models.py:5-89 | An empty database satisfies every table constraint. |
| Store.Database.CreateCategory | asite/jobs/models.py:5-6 | An insert fails with a unique violation exactly when the name is taken, and then the table is unchanged. Otherwise the row is appended under a fresh id. |
| Store.Database.CreateSkill | asite/jobs/models.py:19-20 | Skill names are unique: a taken name is rejected and the table is unchanged. A new name is appended. |
| Store.Database.CreateIndustry | asite/jobs/models.py:26-27 | Industry names are unique: a taken name is rejected and the table is unchanged. A new name is appended. |
| Store.Database.CreateCandidate | asite/jobs/models.py:47-50 | Candidate e-mails are unique (line 49). A taken e-mail is rejected. Otherwise the candidate is appended. |
| Store.Database.GetOrCreateJobTitle | asite/jobs/models.py:33-34 | `created` holds iff the name was absent. A present name reuses the stored row and leaves the table unchanged. An absent name appends one row. |
| Store.Database.GetOrCreateLocation | asite/jobs/models.py:40-41 | `created` holds iff the country code was absent. A present code reuses the stored row. An absent code appends one row. |
| Store.Database.GetOrCreateContract | asite/jobs/models.py:11-13 | Contracts are keyed by type_code. An existing contract is returned as stored, with its description untouched. Only a new code takes the given description. |
| Store.Database.CreateJobRecord | asite/jobs/models.py:70-89 | Succeeds iff every foreign key resolves and no stored record has the same (job_title, work_year, company_location). A clash is a unique violation and an unresolved key is a foreign-key violation; either way the table is unchanged. On success the row is appended and the triple stays unique. |
| JobsModels.ClashDependsOnlyOnKey | asite/jobs/models.py:82-84 | Whether a record clashes depends only on its triple. Salary, currency, residence and the other fields take no part. A clash means some stored row has the same triple. |
| JobsModels.TwoRecordsCoexist | asite/jobs/models.py:82-84 | Two records may coexist iff they differ in job_title, work_year or company_location. |
| JobsModels.ChoiceErrors | asite/jobs/models.py:57-67 | Validation reports salary_currency outside {USD, EUR, GBP} and company_size outside {S, M, L}, once each and in field order. Every reported error is one of these two, so it reports nothing else. |
| JobsModels.RemoteRatioUnconstrained | asite/jobs/models.py:78 | remote_ratio has no declared range: changing it never changes the validation outcome. |
| Store.Database.DeleteJobRecord | asite/feedbacks/models.py:7 | Removes exactly that record. It also removes every feedback row (in both feedback tables) that cites it. |
| Store.Database.DeleteJobTitle | asite/jobs/models.py:73 | CASCADE: removes the title and every record with that title, and the feedback of those records. |
| Store.Database.DeleteLocation | asite/jobs/models.py:77-79 | CASCADE through both roles: removes every record whose employee residence or company location is that location, and their feedback. |
| Store.Database.DeleteContract | asite/jobs/models.py:71-72 | CASCADE through both roles: removes every record whose experience level or employment type is that contract, and their feedback. |
| Store.Database.DeleteCandidate | asite/jobs/models.py:89 | CASCADE: removes the records naming the candidate, the feedback the candidate wrote (asite/feedbacks/models.py:8) and the feedback of the removed records. |
| Store.Database.DeleteIndustry | asite/jobs/models.py:88 | SET_NULL: every record is kept in place, and those naming the industry get a null industry. |
| Store.Database.DeleteSkill | asite/jobs/models.py:87 | Every record is kept, and the skill is dropped from every skill set. |
| Store.Database.DeleteCategory | asite/jobs/models.py:5-6 | Removes exactly that category. No other table changes. |
| Store.Database.RemoveJobsWhere | asite/jobs/models.py:71-89 | The shared cascade step: the kept records are exactly the undoomed ones, and the kept feedback is exactly that whose job survives. |
| Store.Database.RemoveFeedbacksWhere | asite/feedbacks/models.py:8 | Removes exactly the selected feedback rows from both feedback tables. |
| FeedbacksModels.RatingValidatorErrors | asite/feedbacks/models.py:10 | No error iff 1 <= rating <= 5. A low rating gets only the MinValue error and a high rating only the MaxValue error. |
| Store.Database.CreateFeedbacks | asite/feedbacks/models.py:6-11 | Succeeds iff the validators pass and the job and author exist. On success the row is appended, stamped with the given clock reading (auto_now_add). Model.save() runs no validators; the check stands for the form's full_clean, which every view that inserts runs first. |
| Store.Database.SaveFeedbacks | asite/feedbacks/models.py:6-11 | An update of an existing row succeeds iff the validators pass and the job and author exist, and a failure changes nothing. On success only the row with that id gets the new job, author, comment and rating; it keeps its stored created_at, and every other row stays in place. As for the insert, the validators stand for the form's full_clean. |
| Store.Database.DeleteFeedbacks | asite/feedbacks/views.py:105 | Removes exactly the row with that id. |
| Store.Database.CreateFeedback | asite/feedback/views.py:35 | The same insert into the feedback.Feedback table, with the validators again standing for the form's full_clean. |
| Store.CitedJobs | asite/feedbacks/models.py:7 | In a table that references existing jobs, every row's job exists. |
| Store.FilterJobsReference | asite/jobs/models.py:71-89 | Deleting records never leaves a dangling foreign key among the records kept. |
| Store.FilterFeedbacksReference | asite/feedbacks/models.py:7-8 | The feedback rows kept by a cascade still cite an existing job and author and still have a valid rating. |
| Store.MapJobsKeyed | asite/jobs/models.py:82-88 | Rewriting every record without touching its (job_title, work_year, company_location) triple keeps its id and keeps the triples unique. |
| Store.KeepFeedbacks | asite/feedbacks/models.py:7 | Keeping the feedback rows whose job survives keeps unique ids and valid references. |
| Store.SpareFeedbacks | asite/feedbacks/models.py:7-8 | Deleting some feedback rows keeps unique ids and valid references for the rest. |
| Store.ReplaceFeedbacksReference | asite/feedbacks/models.py:7-10 | A validated update of one row keeps every reference valid. |
| FeedbacksForms.CleanRating | asite/feedbacks/forms.py:9-13 | Accepts exactly 1..5 and returns the rating unchanged. A rating below 1 or above 5 gets "Rating must be between 1 and 5.". |
| FeedbacksForms.CleanRatingAgreesWithValidators | asite/feedbacks/forms.py:9-13 | The form check accepts exactly what the model validators (asite/feedbacks/models.py:10) accept. |
| FeedbacksForms.FormErrors | asite/feedbacks/forms.py:4-13 | One error per failing field: an unknown job, an unknown author, a comment that is empty after stripping or else holds a null character, a rating out of range. Each listed error is one its field can report, and the fields come in strictly ascending declaration order, so no error repeats and no other error appears. The form is valid iff none occurs. |
| FeedbacksForms.CollectErrors | asite/feedbacks/forms.py:4-13 | Assembles the four field verdicts into the error list: an error is present iff its field fails with it, every error is one its field can report, and fields come in declaration order. |
| FeedbacksForms.CleanComment | asite/feedbacks/models.py:9 | The comment's form field (a CharField for the TextField) strips the text, reports a required error when nothing is left, and otherwise refuses a null character with "Null characters are not allowed.". It accepts exactly the non-blank stripped texts without a null character, and then yields the stripped text. |
| FeedbacksForms.NullCharacterRefused | asite/feedbacks/models.py:9 | A comment with a null character anywhere makes the form invalid, with the null-character error. |
| Text.StripKeeps | asite/feedbacks/forms.py:7 | Any character that is not whitespace survives stripping. |
| FeedbacksForms.ApplyForm | asite/feedbacks/forms.py:7 | Only job, author_name, comment and rating change. created_at is kept. |
| FeedbacksViews.Search | asite/feedbacks/views.py:26-35 | An empty query keeps every row. A non-empty query keeps exactly the rows whose comment contains it, ignoring ASCII case, each as often as the table holds it. |
| Tables.FilterCounts | asite/feedback/views.py:15 | A filter keeps every row that satisfies its condition exactly as often as the table holds it, and no other row. |
| Text.Contains | asite/feedbacks/views.py:35 | `icontains`: the needle occurs at some offset of the haystack. |
| Text.IContainsEmpty | asite/feedbacks/views.py:34-35 | Every comment contains the empty query. |
| FeedbacksViews.ParseOrdering | asite/feedbacks/views.py:27-38 | Accepts exactly created_at and rating, each with an optional '-'. The '-' means descending. |
| FeedbacksViews.OrderBy | asite/feedbacks/views.py:38 | The result is a permutation of the rows in which every row may precede every later one under the chosen ordering. |
| FeedbacksViews.ComparatorOrder | asite/feedbacks/views.py:38 | Each accepted ordering is a total preorder. |
| Sorting.SortBy | asite/feedbacks/views.py:38 | Sorting by a total preorder yields a sorted permutation of the same length. |
| FeedbacksViews.NumPages | asite/feedbacks/views.py:41 | There is at least one page, and there are just enough pages of 10 for the items. |
| FeedbacksViews.PageNumber | asite/feedbacks/views.py:28-49 | A missing or non-integer page gives page 1. An in-range number is served as is. A number below 1 or past the end gives the last page. |
| FeedbacksViews.Page | asite/feedbacks/views.py:41-43 | Page k holds items (k-1)*10 onward. It has at most 10 items and is full unless it is the last page. |
| FeedbacksViews.ItemOnPage | asite/feedbacks/views.py:41-43 | Item i appears on page i/10+1 at offset i%10. |
| FeedbacksViews.FeedbackList | asite/feedbacks/views.py:23-57 | A sort argument naming no orderable field is a FieldError. Otherwise the search and sort parameters are echoed back, and the page served is the clamped page of the ordered matches. |
| FeedbacksViews.ListPageContents | asite/feedbacks/views.py:31-55 | The served page holds at most ten stored rows, each matching the search, in the requested order. |
| FeedbacksViews.PageOfOrdered | asite/feedbacks/views.py:38-43 | Any page of the ordered rows contains only stored rows, in order. |
| FeedbacksViews.DefaultListNewestFirst | asite/feedbacks/views.py:27 | With no sort parameter the list succeeds and shows the newest feedback first. |
| FeedbacksViews.ListPageNonEmpty | asite/feedbacks/views.py:47-49 | While some feedback matches, the page served is never empty. |
| FeedbacksViews.Detail | asite/feedbacks/views.py:64-67 | Unknown pk gives a 404. Otherwise it returns the stored row with that pk. |
| FeedbacksViews.DetailOfCreated | asite/feedbacks/views.py:79-80 | The detail page that create redirects to shows the row just saved. |
| FeedbacksViews.FeedbackCreate | asite/feedbacks/views.py:74-84 | A valid POST appends the new stamped row and redirects to its detail page. A GET or an invalid POST renders the form (with the errors) and writes nothing: the table and the id counter are unchanged. |
| FeedbacksViews.FeedbackUpdate | asite/feedbacks/views.py:87-98 | An unknown pk gives a 404. A valid POST rewrites only that row through the form, keeps created_at and redirects. Anything else writes nothing. |
| FeedbacksViews.FeedbackDelete | asite/feedbacks/views.py:101-108 | An unknown pk gives a 404. A GET asks for confirmation. A POST removes exactly that row and redirects to the list. |
| FeedbackViews.SelectJob | asite/feedback/views.py:8-10 | Every JobRecord appears once, in ascending order of its title's name. |
| FeedbackViews.ByTitleNameOrder | asite/feedback/views.py:9 | Ordering by title name is a total preorder. |
| Text.StrLeTotal | asite/feedback/views.py:9 | Any two strings are comparable in lexicographic order. |
| Text.StrLeTransitive | asite/feedback/views.py:9 | Lexicographic order is transitive. |
| FeedbackViews.RatingFilter | asite/feedback/views.py:13-18 | When min_rating is present and all digits, keeps exactly the rows rated >= int(min_rating), each as often as the input holds it. Otherwise (missing, "", "-1", "abc") keeps every row. |
| FeedbackViews.ForJob | asite/feedback/views.py:15 | Keeps exactly the feedback about the given job, each row as often as the table holds it. |
| FeedbackViews.AverageRating | asite/feedback/views.py:21 | None exactly when there are no rows. Otherwise the mean times the count is the sum of the ratings. |
| FeedbackViews.SumRatingsBounds | asite/feedback/views.py:21 | Ratings between lo and hi sum to between n*lo and n*hi. |
| FeedbackViews.SumRatingsConcat | asite/feedback/views.py:21 | The rating sum of two lists joined is the sum of their sums. |
| FeedbackViews.SumRatingsPermutation | asite/feedback/views.py:21 | The rating sum depends only on which rows occur and how often, not on their order. |
| FeedbackViews.AveragePermutation | asite/feedback/views.py:21 | Avg('rating') is the same for any order of the same rows. |
| FeedbackViews.AverageBounds | asite/feedback/views.py:21 | The mean of ratings between lo and hi lies between lo and hi. |
| FeedbackViews.JobFeedbacks | asite/feedback/views.py:11-29 | An unknown job gives a 404. Otherwise the page lists exactly that job's feedback, filtered by min_rating when it applies, each row as often as the table holds it. min_rating is echoed back, and the average is that of the rows shown. |
| FeedbackViews.JobFeedbacksAverage | asite/feedback/views.py:17-21 | The average shown lies in [1, 5], and is at least min_rating when that filter applies. |
| FeedbackViews.JobAverageRating | asite/feedback/views.py:42-50 | An unknown job gives a 404. Otherwise the average is None exactly when the job has no feedback, and it equals the mean of any list that holds exactly the job's feedback rows, each as often as the table does. |
| FeedbackViews.AllOfJobAverage | asite/feedback/views.py:44 | Every list holding exactly the job's feedback rows, with their multiplicities, has the same mean as the filtered rows. |
| FeedbackViews.AverageAgreesWithListing | asite/feedback/views.py:21-44 | The average-rating page shows the same mean as the job page without min_rating. |
| FeedbackViews.AddFeedback | asite/feedback/views.py:31-40 | A valid POST appends one stamped feedback row and redirects to the feedback page of the chosen job. Anything else renders the form and stores nothing: the table and the id counter are unchanged. |
| FeedbackViews.RedirectShowsNewFeedback | asite/feedback/views.py:36 | The page add_feedback redirects to lists the row just added. |
| AdvancedQueries.JobViews | asite/jobs/advanced_queries.py:18-58 | One view per record, in table order, carrying its salary, remote ratio and experience code. |
| AdvancedQueries.JobViewsJoin | asite/jobs/advanced_queries.py:18-46 | The join the queries read: each record's view carries the name of its job title row, the description of its experience-level contract and the country code of its company location row, as stored; "" only where no row has the key. |
| AdvancedQueries.TitleNameJoin | asite/jobs/advanced_queries.py:18 | With unique ids, job_title__name is the name of the title row with that id. |
| AdvancedQueries.CountryCodeJoin | asite/jobs/advanced_queries.py:44 | With unique ids, company_location__country_code is the code of the location row with that id. |
| AdvancedQueries.DescriptionJoin | asite/jobs/advanced_queries.py:31 | With unique type codes, experience_level__description is the description of the contract with that code. |
| AdvancedQueries.DescriptionMissing | asite/jobs/advanced_queries.py:31 | A code no contract has gets the description "". |
| Tables.GetFinds | asite/jobs/models.py:5-89 | A lookup by primary key, under unique primary keys, finds the stored row with that key. |
| AdvancedQueries.Distinct | asite/jobs/advanced_queries.py:18 | The grouping keys: each key that occurs, once. |
| AdvancedQueries.RoundDiv | asite/jobs/advanced_queries.py:19 | Round(Avg, 2) on cents: the integer nearest to sum/n, with ties away from zero. |
| AdvancedQueries.GroupMeans | asite/jobs/advanced_queries.py:18-32 | One group per distinct key, each with the rounded mean salary of exactly its records. |
| AdvancedQueries.TopJobTitles | asite/jobs/advanced_queries.py:18-20 | min(5, number of titles) groups, one per title name, each with its rounded mean, in non-increasing order of mean. |
| AdvancedQueries.TopJobTitlesAreTop | asite/jobs/advanced_queries.py:20 | No title left out has a higher mean than one kept. With at most five titles, every title is kept. |
| AdvancedQueries.AvgByExperience | asite/jobs/advanced_queries.py:31-33 | Exactly one group per (type_code, description) pair, with its rounded mean, in ascending type_code order. |
| AdvancedQueries.JobsByLocation | asite/jobs/advanced_queries.py:44-46 | Exactly one entry per company location code, with its positive count, in non-increasing count order. The counts sum to the number of records. |
| AdvancedQueries.TalliesTotal | asite/jobs/advanced_queries.py:45 | Counting each distinct code accounts for every record exactly once. |
| AdvancedQueries.RemoteRatio | asite/jobs/advanced_queries.py:57-59 | The total is the number of records. The remote count is the number with ratio 100 and never exceeds the total. The percentage is 0 for no records, otherwise the share of remote jobs. |
| AdvancedQueries.RemotePercentage | asite/jobs/advanced_queries.py:59 | The percentage is remote/total*100: times the total it gives 100 times the remote count, and it lies in [0, 100]. |
| AdvancedQueries.Percentage | asite/jobs/advanced_queries.py:59 | A part of a whole, as a percentage, lies in [0, 100] and times the whole gives 100 times the part. |
| AdvancedQueries.RemoteCountsFullyRemote | asite/jobs/advanced_queries.py:58 | The remote count equals the size of filter(remote_ratio=100). |
| AdvancedQueries.RunAdvancedQueries | asite/jobs/advanced_queries.py:13-59 | Computes the four queries from the current tables and modifies nothing. At most five top titles; location counts sum to the record count; the remote total is the record count. |
| ImportJobs.RecordOf | asite/jobs/import_jobs.py:62-75 | An imported record has no candidate, no industry and no skills. Its triple is the resolved title, the year and the company location. |
| ImportJobs.ImportTitle | asite/jobs/import_jobs.py:26-30 | The title is created iff its name was absent. Otherwise the existing row is reused. |
| ImportJobs.ImportLocation | asite/jobs/import_jobs.py:33-37 | One get_or_create of a country code: the code ends up in the table, with a row appended only when it was new. |
| ImportJobs.ImportLocations | asite/jobs/import_jobs.py:33-44 | Both codes end up in the table and no other code is added. The table grows by the returned count and keeps its country codes unique. |
| ImportJobs.ImportContracts | asite/jobs/import_jobs.py:47-58 | Both codes end up in the table, and existing contracts are untouched. A new experience-level code gets "Experience Level: <code>". A new employment-type code gets "Employment Type: <code>" unless the same line's experience level already named it, in which case the experience default stands. Nothing else is added. |
| ImportJobs.ImportedIffClash | asite/jobs/import_jobs.py:60-81 | A stored record carries the line's triple iff the resolved ids are taken. |
| ImportJobs.ImportRecord | asite/jobs/import_jobs.py:60-81 | A record is created iff no stored record has the line's triple, and it is then exactly the record built from the line. A duplicate leaves the table unchanged. |
| ImportJobs.ImportLookups | asite/jobs/import_jobs.py:26-58 | The title, both locations and both contracts of a line exist afterwards, and each table gains exactly the line's new names or codes. New contracts carry the descriptions ImportContracts gives them. |
| ImportJobs.ImportRow | asite/jobs/import_jobs.py:24-81 | One loop pass. Catalog rows created for the line persist even when its record is a skipped duplicate. New contracts carry the experience default first, then the employment default. |
| ImportJobs.ImportStep | asite/jobs/import_jobs.py:24-81 | One loop iteration keeps the loop's invariant: the tables hold the names, codes and records of every line read so far, every new record is built from one of those lines, each counter matches the rows added, and every new contract code has the description of the first column naming it. |
| ImportJobs.ImportJobsFromCsv | asite/jobs/import_jobs.py:13-81 | Records created plus duplicates skipped equals the number of lines. Every line ends with a stored record carrying its triple, and every new record is built from some line. The titles and locations created are exactly the new names and codes. The catalog tables only grow. Every contract code the file introduces is stored with the default of the first column naming it, line by line, experience level before employment type. |
| ImportJobs.CreatedCount | asite/jobs/import_jobs.py:28-43 | A unique table that grew by n rows grew by exactly n new keys, so each counter counts new names or codes. |
| ImportJobs.DistinctKeyCount | asite/jobs/import_jobs.py:26-44 | Under a UNIQUE constraint a table has as many keys as rows. |
| ImportJobs.StepImported | asite/jobs/import_jobs.py:78-81 | A later line never undoes the import of an earlier one: a duplicate does not stop the loop. |
| ImportJobs.StepRepresents | asite/jobs/import_jobs.py:60-77 | Every record added so far stays the record of some line read so far. |
| ImportJobs.StepContracts | asite/jobs/import_jobs.py:47-58 | Every contract added so far has the default description for a line read so far. |
| ImportJobs.FirstDescriptionSnoc | asite/jobs/import_jobs.py:47-58 | A later line never changes the description of a code an earlier line introduced; a code met for the first time takes that line's default. |
| ImportJobs.StepDescriptions | asite/jobs/import_jobs.py:47-58 | One import step keeps every new contract code stored with the description of the first column naming it. |
| Text.StripTrims | asite/feedbacks/forms.py:7 | The comment field is stripped as str.strip() does, of every character str.isspace() accepts: the result is a contiguous slice without leading or trailing whitespace. It is empty iff the input is all whitespace. |
| Text.StripIdempotent | asite/feedbacks/forms.py:7 | Stripping an already stripped comment changes nothing. |
| Text.ParseInt | asite/feedbacks/views.py:44-46 | A page value parses iff it is an optional sign followed by digits. |
| Text.ParseShowInt | asite/feedbacks/views.py:43 | Every integer's decimal text parses back to that integer. |

## Left out

- Printing, file I/O and CSV reading. The import takes already-parsed rows. Malformed rows (a failing `int()`/`float()` or a missing column) abort the Python loop, and the model does not represent them.
- `RunAdvancedQueries` does not write `query_results.txt` and does not format `'{:,.2f}'`.
- Floating-point and decimal arithmetic. Salaries are integer cents. `Round(Avg, 2)` is an integer rounding of the cents mean (half away from zero). Means and percentages are exact `real`s, so binary-float rounding is not modelled.
- Tie order. `order_by` does not define the order of equal means, counts, title names or sort values. The contracts state only the ordering itself, so any tie order satisfies them.
- Group order before sorting is the order of last occurrences. It is not observable through the contracts.
- `order_by` on any other field. The list models only created_at and rating (with an optional '-'). Every other string is a FieldError result, including valid column names such as `id` and `comment`.
- Unicode. `icontains` folds ASCII letters only. `isdigit` accepts ASCII digits only. `int()` of a page parameter does not accept surrounding whitespace or underscores.
- Column widths and the database's integer and decimal ranges: the CharField max_length of every name, code, e-mail and choice column (asite/jobs/models.py:6-80), the max_digits=12, decimal_places=2 salaries (lines 74 and 76) and the IntegerField year and remote ratio (lines 70 and 78). Strings and integers are unbounded here. On a backend that enforces widths, an over-long title or code in the CSV raises DataError and aborts the import part-way, while the modelled import always processes every line.
- Model.save() runs no validators. The modelled inserts and updates of feedback check the rating validators because every view that saves a row runs the form's full_clean first; a direct save() of an out-of-range rating is not modelled.
- feedback.Feedback: asite/feedback/models.py and asite/feedback/forms.py are not part of this model. Their table is assumed to have the columns, validators and cascades of feedbacks.Feedbacks, and their form the checks of FeedbackForm.
- Form input conversion: a rating that is not an integer, or a missing field. The form is given already-typed values.
- Primary keys come from one counter shared by all tables. Django keeps one sequence per table; ids are opaque here.
- Store.Database.CreateJobRecord: choice fields are not checked on insert, as with `objects.create`. `ChoiceErrors` states the validation separately.
- remote_ratio has no declared range in the model code, so no 0..100 bound is assumed or proved.
- Text.StrLe: `order_by('job_title__name')` (asite/feedback/views.py:9) and `order_by('experience_level__type_code')` (asite/jobs/advanced_queries.py:33, `AdvancedQueries.ByCode`) are modelled as code-point order, which is SQLite's default BINARY collation. A backend with a locale collation (PostgreSQL, MySQL) may order the names and codes differently; that ordering is not modelled.
- A page number below 1 is served the last page, as Django's EmptyPage handling in the view does.
- Lookups of a missing title, location or contract description in the report queries give "". The tables' foreign keys rule this out in a valid database.
- Serializers, ViewSets, routers, URL configurations, admin classes and `asite/jobs/forms.py`: framework glue with no logic of its own.
- The `feedback_list_api` and `feedback_detail_api` views only render a template.
- The `create_feedbacks` management commands generate random seed data.
- Authentication and permissions (`IsAuthenticatedOrReadOnly`), transactions and concurrent requests.
- Template rendering. A rendered page is its context value, a redirect is a `Route` value and a 404 is `None` or `NotFound`.
