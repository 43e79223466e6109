/**
 * The job-centred feedback pages of asite/feedback/views.py: the job picker,
 * the feedback of one job with an optional minimum rating and their mean,
 * the mean alone, and the add form. They read and write the feedback.Feedback
 * table (Database.jobFeedback).
 */
module FeedbackViews {
  import opened Tables
  import opened Text
  import opened Sorting
  import opened JobsModels
  import opened FeedbacksModels
  import opened FeedbacksForms
  import opened Store
  import opened Http
  import opened AdvancedQueries

  // ---------------------------------------------------------------- select_job

  /** order_by('job_title__name'). */
  function ByTitleName(titles: seq<Row<JobTitle>>): (Row<JobRecord>, Row<JobRecord>) -> bool {
    (a: Row<JobRecord>, b: Row<JobRecord>) => StrLe(TitleNameOf(titles, a.val.jobTitle), TitleNameOf(titles, b.val.jobTitle))
  }

  lemma ByTitleNameOrder(titles: seq<Row<JobTitle>>)
    ensures TotalPreorder(ByTitleName(titles))
  {
    var le := ByTitleName(titles);
    forall a, b ensures le(a, b) || le(b, a) {
      StrLeTotal(TitleNameOf(titles, a.val.jobTitle), TitleNameOf(titles, b.val.jobTitle));
    }
    forall a, b, c | le(a, b) && le(b, c) ensures le(a, c) {
      StrLeTransitive(TitleNameOf(titles, a.val.jobTitle), TitleNameOf(titles, b.val.jobTitle),
                      TitleNameOf(titles, c.val.jobTitle));
    }
  }

  /** select_job: every JobRecord once, in ascending order of its title's name. */
  function SelectJob(jobs: seq<Row<JobRecord>>, titles: seq<Row<JobTitle>>): (r: seq<Row<JobRecord>>)
    ensures multiset(r) == multiset(jobs)
    ensures forall i, j :: 0 <= i < j < |r| ==>
      StrLe(TitleNameOf(titles, r[i].val.jobTitle), TitleNameOf(titles, r[j].val.jobTitle))
  {
    ByTitleNameOrder(titles);
    SortBy(jobs, ByTitleName(titles))
  }

  // ---------------------------------------------------------------- ratings

  /** The min_rating parameter is used only when present and all digits (min_rating.isdigit()). */
  predicate MinRatingApplies(minRating: Option<string>) {
    minRating.Some? && IsDigits(minRating.value)
  }

  /** A row passes the min_rating filter: its rating is at least the parameter, when that applies. */
  predicate RatingAtLeast(f: Row<Feedbacks>, minRating: Option<string>) {
    MinRatingApplies(minRating) ==> f.val.rating >= DigitsValue(minRating.value)
  }

  /** filter(rating__gte=int(min_rating)) when the parameter applies; otherwise no filter. */
  function RatingFilter(rows: seq<Row<Feedbacks>>, minRating: Option<string>): (r: seq<Row<Feedbacks>>)
    ensures forall f :: f in r <==>
      f in rows && (MinRatingApplies(minRating) ==> f.val.rating >= DigitsValue(minRating.value))
    ensures forall f :: multiset(r)[f] == if RatingAtLeast(f, minRating) then multiset(rows)[f] else 0
    ensures !MinRatingApplies(minRating) ==> r == rows
  {
    if MinRatingApplies(minRating) then
      var least := DigitsValue(minRating.value);
      var atLeast := (f: Row<Feedbacks>) => f.val.rating >= least;
      FilterCounts(rows, atLeast);
      Filter(rows, atLeast)
    else rows
  }

  /** The feedback rows about one job (Feedback.objects.filter(job=job)). */
  function ForJob(rows: seq<Row<Feedbacks>>, jobId: Id): (r: seq<Row<Feedbacks>>)
    ensures forall f :: f in r <==> f in rows && f.val.job == jobId
    ensures forall f :: multiset(r)[f] == if f.val.job == jobId then multiset(rows)[f] else 0
  {
    var ofJob := (f: Row<Feedbacks>) => f.val.job == jobId;
    FilterCounts(rows, ofJob);
    Filter(rows, ofJob)
  }

  function SumRatings(rows: seq<Row<Feedbacks>>): int {
    if rows == [] then 0 else rows[0].val.rating + SumRatings(rows[1..])
  }

  /**
   * aggregate(Avg('rating'))['rating__avg']: None over no rows, otherwise
   * the mean rating.
   */
  function AverageRating(rows: seq<Row<Feedbacks>>): (a: Option<real>)
    ensures a.None? <==> rows == []
    ensures a.Some? ==> a.value * |rows| as real == SumRatings(rows) as real
  {
    if rows == [] then None else Some(SumRatings(rows) as real / |rows| as real)
  }

  /** Ratings between `lo` and `hi` add up to between n * lo and n * hi. */
  lemma {:induction false} SumRatingsBounds(rows: seq<Row<Feedbacks>>, lo: int, hi: int)
    requires forall f :: f in rows ==> lo <= f.val.rating <= hi
    ensures |rows| * lo <= SumRatings(rows) <= |rows| * hi
  {
    if rows != [] {
      var tail := rows[1..];
      assert forall f :: f in tail ==> f in rows;
      assert rows[0] in rows;
      SumRatingsBounds(tail, lo, hi);
      MulSucc(|tail|, lo);
      MulSucc(|tail|, hi);
    }
  }

  /** The ratings of `a + b` add up to those of `a` plus those of `b`. */
  lemma {:induction false} SumRatingsConcat(a: seq<Row<Feedbacks>>, b: seq<Row<Feedbacks>>)
    ensures SumRatings(a + b) == SumRatings(a) + SumRatings(b)
  {
    if a == [] {
      assert a + b == b;
    } else {
      assert (a + b)[1..] == a[1..] + b;
      SumRatingsConcat(a[1..], b);
    }
  }

  /** The sum of the ratings depends only on which rows occur and how often, not on their order. */
  lemma {:induction false} SumRatingsPermutation(a: seq<Row<Feedbacks>>, b: seq<Row<Feedbacks>>)
    requires multiset(a) == multiset(b)
    ensures SumRatings(a) == SumRatings(b)
  {
    if a == [] {
      assert |b| == |multiset(b)| == 0;
    } else {
      var x := a[0];
      assert a == [x] + a[1..];
      assert x in multiset(b);
      var k :| 0 <= k < |b| && b[k] == x;
      var rest := b[..k] + b[k + 1..];
      assert b == b[..k] + ([x] + b[k + 1..]);
      assert multiset(rest) == multiset(b) - multiset{x};
      SumRatingsConcat(b[..k], [x] + b[k + 1..]);
      SumRatingsConcat(b[..k], b[k + 1..]);
      SumRatingsPermutation(a[1..], rest);
    }
  }

  /** The mean rating of a list does not depend on the order of its rows. */
  lemma AveragePermutation(a: seq<Row<Feedbacks>>, b: seq<Row<Feedbacks>>)
    requires multiset(a) == multiset(b)
    ensures AverageRating(a) == AverageRating(b)
  {
    SumRatingsPermutation(a, b);
    assert |a| == |multiset(a)| == |multiset(b)| == |b|;
  }

  /** The mean of ratings between `lo` and `hi` lies between them. */
  lemma AverageBounds(rows: seq<Row<Feedbacks>>, lo: int, hi: int)
    requires forall f :: f in rows ==> lo <= f.val.rating <= hi
    ensures AverageRating(rows).Some? ==> lo as real <= AverageRating(rows).value <= hi as real
  {
    if rows != [] {
      SumRatingsBounds(rows, lo, hi);
      MeanBetween(SumRatings(rows), |rows|, lo, hi);
    }
  }

  /** A total between m * lo and m * hi has its mean over m between lo and hi. */
  lemma MeanBetween(s: int, m: nat, lo: int, hi: int)
    requires m > 0 && m * lo <= s <= m * hi
    ensures lo as real <= s as real / m as real <= hi as real
  {
    RealOfProduct(m, lo);
    RealOfProduct(m, hi);
    DivBetween(s as real, m as real, lo as real, hi as real);
  }

  // ---------------------------------------------------------------- job_feedbacks

  /** What job_feedbacks renders. */
  datatype FeedbackPage = FeedbackPage(
    job: Row<JobRecord>,
    feedbacks: seq<Row<Feedbacks>>,
    minRating: Option<string>,
    averageRating: Option<real>)

  /**
   * job_feedbacks: None (the 404) for an unknown job; otherwise the job, its
   * feedback rows filtered by min_rating when that applies, the parameter
   * echoed back, and the mean of the rows shown (None when there is none).
   */
  function JobFeedbacks(jobs: seq<Row<JobRecord>>, feedback: seq<Row<Feedbacks>>, jobId: Id,
                        minRating: Option<string>): (r: Option<FeedbackPage>)
    ensures r.None? <==> jobId !in Ids(jobs)
    ensures r.Some? ==> r.value.job in jobs && r.value.job.id == jobId
    ensures r.Some? ==> forall f :: f in r.value.feedbacks <==>
      f in feedback && f.val.job == jobId && (MinRatingApplies(minRating) ==> f.val.rating >= DigitsValue(minRating.value))
    ensures r.Some? ==> forall f :: multiset(r.value.feedbacks)[f] ==
                                    if f.val.job == jobId && RatingAtLeast(f, minRating) then multiset(feedback)[f] else 0
    ensures r.Some? ==> r.value.minRating == minRating
    ensures r.Some? ==> r.value.averageRating == AverageRating(r.value.feedbacks)
  {
    match Tables.Get(jobs, jobId)
    case None => None
    case Some(job) =>
      var shown := RatingFilter(ForJob(feedback, jobId), minRating);
      Some(FeedbackPage(Row(jobId, job), shown, minRating, AverageRating(shown)))
  }

  /**
   * The mean shown by job_feedbacks is a valid rating, and no lower than the
   * minimum rating when that applies.
   */
  lemma JobFeedbacksAverage(jobs: seq<Row<JobRecord>>, feedback: seq<Row<Feedbacks>>, jobId: Id,
                            minRating: Option<string>)
    requires forall f :: f in feedback ==> MinRating <= f.val.rating <= MaxRating
    requires JobFeedbacks(jobs, feedback, jobId, minRating).Some?
    ensures var p := JobFeedbacks(jobs, feedback, jobId, minRating).value;
      && (p.averageRating.Some? ==> MinRating as real <= p.averageRating.value <= MaxRating as real)
      && (p.averageRating.Some? && MinRatingApplies(minRating) ==> DigitsValue(minRating.value) as real <= p.averageRating.value)
  {
    var p := JobFeedbacks(jobs, feedback, jobId, minRating).value;
    AverageBounds(p.feedbacks, MinRating, MaxRating);
    if MinRatingApplies(minRating) {
      AverageBounds(p.feedbacks, DigitsValue(minRating.value), MaxRating);
    }
  }

  // ---------------------------------------------------------------- job_average_rating

  /** What job_average_rating renders. */
  datatype AverageContext = AverageContext(job: Row<JobRecord>, averageRating: Option<real>)

  /** `rows` holds every feedback row of the job as often as `feedback` does, and nothing else. */
  ghost predicate AllOfJob(rows: seq<Row<Feedbacks>>, feedback: seq<Row<Feedbacks>>, jobId: Id) {
    forall f :: multiset(rows)[f] == if f.val.job == jobId then multiset(feedback)[f] else 0
  }

  /** Any two lists holding exactly the job's feedback rows have the same mean. */
  lemma AllOfJobAverage(feedback: seq<Row<Feedbacks>>, jobId: Id)
    ensures forall rows :: AllOfJob(rows, feedback, jobId) ==> AverageRating(rows) == AverageRating(ForJob(feedback, jobId))
  {
    var own := ForJob(feedback, jobId);
    forall rows | AllOfJob(rows, feedback, jobId)
      ensures AverageRating(rows) == AverageRating(own)
    {
      assert forall f :: multiset(rows)[f] == multiset(own)[f];
      assert multiset(rows) == multiset(own);
      AveragePermutation(rows, own);
    }
  }

  /** job_average_rating: None (the 404) for an unknown job, otherwise the mean of all its feedback. */
  function JobAverageRating(jobs: seq<Row<JobRecord>>, feedback: seq<Row<Feedbacks>>, jobId: Id): (r: Option<AverageContext>)
    ensures r.None? <==> jobId !in Ids(jobs)
    ensures r.Some? ==> r.value.job in jobs && r.value.job.id == jobId
    ensures r.Some? ==> (r.value.averageRating.None? <==> forall f :: f in feedback ==> f.val.job != jobId)
    ensures r.Some? ==> forall rows :: AllOfJob(rows, feedback, jobId) ==> r.value.averageRating == AverageRating(rows)
  {
    match Tables.Get(jobs, jobId)
    case None => None
    case Some(job) =>
      var rows := ForJob(feedback, jobId);
      AllOfJobAverage(feedback, jobId);
      assert rows != [] ==> rows[0] in rows;
      Some(AverageContext(Row(jobId, job), AverageRating(rows)))
  }

  /** job_average_rating shows the mean job_feedbacks shows when no min_rating is given. */
  lemma AverageAgreesWithListing(jobs: seq<Row<JobRecord>>, feedback: seq<Row<Feedbacks>>, jobId: Id)
    requires jobId in Ids(jobs)
    ensures JobAverageRating(jobs, feedback, jobId).value.averageRating
         == JobFeedbacks(jobs, feedback, jobId, None).value.averageRating
  {
  }

  // ---------------------------------------------------------------- add_feedback

  /**
   * add_feedback: a valid POST saves a new feedback.Feedback row stamped
   * `now` and redirects to the feedback page of its job; an invalid POST or
   * a GET renders the form and writes nothing.
   */
  method AddFeedback(db: Database, m: HttpMethod, form: FeedbackForm, now: int) returns (resp: Response)
    requires db.Valid()
    modifies db`jobFeedback, db`nextId
    ensures db.Valid()
    ensures m == Get ==> resp == FormPage([]) && db.jobFeedback == old(db.jobFeedback) && db.nextId == old(db.nextId)
    ensures m == Post && FormErrors(form, Ids(db.jobs), Ids(db.candidates)) != [] ==>
      && resp == FormPage(FormErrors(form, Ids(db.jobs), Ids(db.candidates)))
      && db.jobFeedback == old(db.jobFeedback) && db.nextId == old(db.nextId)
    ensures m == Post && FormErrors(form, Ids(db.jobs), Ids(db.candidates)) == [] ==>
      && resp == Redirect(JobFeedbacksPage(form.job))
      && db.jobFeedback == old(db.jobFeedback)
         + [Row(old(db.nextId), Feedbacks(form.job, form.authorName, Strip(form.comment), form.rating, now))]
  {
    if m == Get {
      return FormPage([]);
    }
    var errs := FormErrors(form, Ids(db.jobs), Ids(db.candidates));
    if errs != [] {
      return FormPage(errs);
    }
    var res := db.CreateFeedback(form.job, form.authorName, Strip(form.comment), form.rating, now);
    assert res.Ok?;
    resp := Redirect(JobFeedbacksPage(form.job));
  }

  /** The page add_feedback redirects to lists the row it just saved. */
  lemma RedirectShowsNewFeedback(jobs: seq<Row<JobRecord>>, feedback: seq<Row<Feedbacks>>, row: Row<Feedbacks>)
    requires row.val.job in Ids(jobs)
    ensures JobFeedbacks(jobs, feedback + [row], row.val.job, None).Some?
    ensures row in JobFeedbacks(jobs, feedback + [row], row.val.job, None).value.feedbacks
  {
  }
}
