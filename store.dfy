/**
 * The database behind asite/jobs/models.py and asite/feedbacks/models.py:
 * every table as a field of one Database object. Inserts enforce the unique
 * columns, unique_together and the foreign keys; deletes follow each foreign
 * key's on_delete rule (CASCADE, or SET_NULL for JobRecord.industry).
 */
module Store {
  import opened Tables
  import opened JobsModels
  import opened FeedbacksModels

  /** Why a write was refused: an IntegrityError, or a failed model validation. */
  datatype StoreError = UniqueViolation | ForeignKeyViolation | InvalidRating(errors: seq<ValidatorError>)

  class Database {
    var categories: seq<Row<Category>>
    var contracts: seq<Contract>
    var skills: seq<Row<Skill>>
    var industries: seq<Row<Industry>>
    var jobTitles: seq<Row<JobTitle>>
    var locations: seq<Row<Location>>
    var candidates: seq<Row<Candidate>>
    var jobs: seq<Row<JobRecord>>
    /** The feedbacks.Feedbacks table. */
    var feedbacks: seq<Row<Feedbacks>>
    /** The feedback.Feedback table of the second feedback app (same columns). */
    var jobFeedback: seq<Row<Feedbacks>>
    /** The next primary key handed out; every stored id is below it. */
    var nextId: Id

    /** The database's constraints: unique columns, unique_together, foreign keys, rating range. */
    ghost predicate Valid()
      reads this
    {
      CatalogValid() && JobsValid() && FeedbackValid()
    }

    /** The catalog tables: unique ids below the counter and unique names, codes and e-mails. */
    ghost predicate CatalogValid()
      reads this`categories, this`contracts, this`skills, this`industries, this`jobTitles, this`locations,
            this`candidates, this`nextId
    {
      && Keyed(categories, nextId) && DistinctBy(categories, CategoryName)
      && DistinctBy(contracts, ContractCode)
      && Keyed(skills, nextId) && DistinctBy(skills, SkillName)
      && Keyed(industries, nextId) && DistinctBy(industries, IndustryName)
      && Keyed(jobTitles, nextId) && DistinctBy(jobTitles, TitleName)
      && Keyed(locations, nextId) && DistinctBy(locations, CountryCode)
      && Keyed(candidates, nextId) && DistinctBy(candidates, CandidateEmail)
    }

    /** JobRecord: unique ids, unique_together, and every foreign key resolves. */
    ghost predicate JobsValid()
      reads this`jobs, this`nextId, this`contracts, this`jobTitles, this`locations, this`skills, this`industries,
            this`candidates
    {
      && Keyed(jobs, nextId) && UniqueTogether(jobs)
      && JobsReference(jobs, KeySet(contracts, ContractCode), Ids(jobTitles), Ids(locations),
                       Ids(skills), Ids(industries), Ids(candidates))
    }

    /** Both feedback tables: unique ids, existing job and author, rating in range. */
    ghost predicate FeedbackValid()
      reads this`feedbacks, this`jobFeedback, this`jobs, this`candidates, this`nextId
    {
      && Keyed(feedbacks, nextId) && FeedbacksReference(feedbacks, Ids(jobs), Ids(candidates))
      && Keyed(jobFeedback, nextId) && FeedbacksReference(jobFeedback, Ids(jobs), Ids(candidates))
    }

    constructor ()
      ensures Valid()
      ensures categories == [] && contracts == [] && skills == [] && industries == []
      ensures jobTitles == [] && locations == [] && candidates == [] && jobs == []
      ensures feedbacks == [] && jobFeedback == []
    {
      categories, contracts, skills, industries := [], [], [], [];
      jobTitles, locations, candidates, jobs := [], [], [], [];
      feedbacks, jobFeedback := [], [];
      nextId := 0;
    }

    // ---------------------------------------------------------------- catalog inserts

    /** Category.objects.create(name=...): name is unique. */
    method CreateCategory(name: string) returns (res: Result<Id, StoreError>)
      requires Valid()
      modifies this`categories, this`nextId
      ensures Valid()
      ensures res.Err? <==> name in KeySet(old(categories), CategoryName)
      ensures res.Err? ==> res.error == UniqueViolation && categories == old(categories)
      ensures res.Ok? ==> res.value == old(nextId) && categories == old(categories) + [Row(res.value, Category(name))]
    {
      if name in KeySet(categories, CategoryName) {
        return Err(UniqueViolation);
      }
      var row := Row(nextId, Category(name));
      AppendFresh(categories, row, nextId, CategoryName);
      categories, nextId := categories + [row], nextId + 1;
      res := Ok(row.id);
    }

    /** Skill.objects.create(name=...): name is unique. */
    method CreateSkill(name: string) returns (res: Result<Id, StoreError>)
      requires Valid()
      modifies this`skills, this`nextId
      ensures Valid()
      ensures res.Err? <==> name in KeySet(old(skills), SkillName)
      ensures res.Err? ==> res.error == UniqueViolation && skills == old(skills)
      ensures res.Ok? ==> res.value == old(nextId) && skills == old(skills) + [Row(res.value, Skill(name))]
    {
      if name in KeySet(skills, SkillName) {
        return Err(UniqueViolation);
      }
      var row := Row(nextId, Skill(name));
      AppendFresh(skills, row, nextId, SkillName);
      skills, nextId := skills + [row], nextId + 1;
      res := Ok(row.id);
    }

    /** Industry.objects.create(name=...): name is unique. */
    method CreateIndustry(name: string) returns (res: Result<Id, StoreError>)
      requires Valid()
      modifies this`industries, this`nextId
      ensures Valid()
      ensures res.Err? <==> name in KeySet(old(industries), IndustryName)
      ensures res.Err? ==> res.error == UniqueViolation && industries == old(industries)
      ensures res.Ok? ==> res.value == old(nextId) && industries == old(industries) + [Row(res.value, Industry(name))]
    {
      if name in KeySet(industries, IndustryName) {
        return Err(UniqueViolation);
      }
      var row := Row(nextId, Industry(name));
      AppendFresh(industries, row, nextId, IndustryName);
      industries, nextId := industries + [row], nextId + 1;
      res := Ok(row.id);
    }

    /** Candidate.objects.create(...): email is unique, name and location are not. */
    method CreateCandidate(name: string, email: string, location: string) returns (res: Result<Id, StoreError>)
      requires Valid()
      modifies this`candidates, this`nextId
      ensures Valid()
      ensures res.Err? <==> email in KeySet(old(candidates), CandidateEmail)
      ensures res.Err? ==> res.error == UniqueViolation && candidates == old(candidates)
      ensures res.Ok? ==>
        res.value == old(nextId) && candidates == old(candidates) + [Row(res.value, Candidate(name, email, location))]
    {
      if email in KeySet(candidates, CandidateEmail) {
        return Err(UniqueViolation);
      }
      var row := Row(nextId, Candidate(name, email, location));
      AppendFresh(candidates, row, nextId, CandidateEmail);
      candidates, nextId := candidates + [row], nextId + 1;
      res := Ok(row.id);
    }

    /** JobTitle.objects.get_or_create(name=...): reuses the row with that name, or adds one. */
    method GetOrCreateJobTitle(name: string) returns (id: Id, created: bool)
      requires Valid()
      modifies this`jobTitles, this`nextId
      ensures Valid()
      ensures created <==> name !in KeySet(old(jobTitles), TitleName)
      ensures !created ==> jobTitles == old(jobTitles) && Row(id, JobTitle(name)) in jobTitles
      ensures created ==> id == old(nextId) && jobTitles == old(jobTitles) + [Row(id, JobTitle(name))]
    {
      var found := FindBy(jobTitles, TitleName, name);
      if found.Some? {
        return found.value.id, false;
      }
      var row := Row(nextId, JobTitle(name));
      AppendFresh(jobTitles, row, nextId, TitleName);
      jobTitles, nextId := jobTitles + [row], nextId + 1;
      id, created := row.id, true;
    }

    /** Location.objects.get_or_create(country_code=...). */
    method GetOrCreateLocation(code: string) returns (id: Id, created: bool)
      requires Valid()
      modifies this`locations, this`nextId
      ensures Valid()
      ensures created <==> code !in KeySet(old(locations), CountryCode)
      ensures !created ==> locations == old(locations) && Row(id, Location(code)) in locations
      ensures created ==> id == old(nextId) && locations == old(locations) + [Row(id, Location(code))]
    {
      var found := FindBy(locations, CountryCode, code);
      if found.Some? {
        return found.value.id, false;
      }
      var row := Row(nextId, Location(code));
      AppendFresh(locations, row, nextId, CountryCode);
      locations, nextId := locations + [row], nextId + 1;
      id, created := row.id, true;
    }

    /**
     * Contract.objects.get_or_create(type_code=..., defaults={'description': ...}):
     * an existing Contract is returned as stored (its description untouched);
     * only a new one takes the default description.
     */
    method GetOrCreateContract(code: string, description: string) returns (c: Contract, created: bool)
      requires Valid()
      modifies this`contracts
      ensures Valid()
      ensures created <==> code !in KeySet(old(contracts), ContractCode)
      ensures c.typeCode == code
      ensures !created ==> contracts == old(contracts) && c in contracts
      ensures created ==> c == Contract(code, description) && contracts == old(contracts) + [c]
    {
      var i := 0;
      while i < |contracts|
        invariant 0 <= i <= |contracts|
        invariant forall k :: 0 <= k < i ==> contracts[k].typeCode != code
      {
        if contracts[i].typeCode == code {
          return contracts[i], false;
        }
        i := i + 1;
      }
      c, created := Contract(code, description), true;
      AppendKeySet(contracts, c, ContractCode);
      contracts := contracts + [c];
    }

    // ---------------------------------------------------------------- JobRecord insert

    /** The foreign keys of `r` all resolve in the current tables. */
    predicate Resolves(r: JobRecord)
      reads this
    {
      References(r, KeySet(contracts, ContractCode), Ids(jobTitles), Ids(locations),
                 Ids(skills), Ids(industries), Ids(candidates))
    }

    /**
     * JobRecord.objects.create(...): an IntegrityError when a foreign key does
     * not resolve or when the (job_title, work_year, company_location) triple is
     * taken; the table is then left as it was. Otherwise the row is appended.
     */
    method CreateJobRecord(r: JobRecord) returns (res: Result<Id, StoreError>)
      requires Valid()
      modifies this`jobs, this`nextId
      ensures Valid()
      ensures res.Ok? <==> old(Resolves(r)) && !Clashes(old(jobs), r)
      ensures res.Err? ==> jobs == old(jobs)
      ensures res.Err? ==> res.error == if old(Resolves(r)) then UniqueViolation else ForeignKeyViolation
      ensures res.Ok? ==> res.value == old(nextId) && jobs == old(jobs) + [Row(res.value, r)]
    {
      if !Resolves(r) {
        return Err(ForeignKeyViolation);
      }
      if Key(r) in KeySet(jobs, RowKey) {
        return Err(UniqueViolation);
      }
      var row := Row(nextId, r);
      AppendFresh(jobs, row, nextId, RowKey);
      jobs, nextId := jobs + [row], nextId + 1;
      res := Ok(row.id);
    }

    // ---------------------------------------------------------------- Feedbacks writes

    /**
     * Saving a new Feedbacks row after model validation: the rating validators
     * must pass and both foreign keys must resolve; created_at is stamped with
     * `now` (auto_now_add).
     */
    method CreateFeedbacks(job: Id, author: Id, comment: string, rating: int, now: int)
      returns (res: Result<Id, StoreError>)
      requires Valid()
      modifies this`feedbacks, this`nextId
      ensures Valid()
      ensures res.Ok? <==> RatingValidatorErrors(rating) == [] && job in Ids(jobs) && author in Ids(candidates)
      ensures res.Err? ==> feedbacks == old(feedbacks)
      ensures res.Err? && RatingValidatorErrors(rating) != [] ==> res.error == InvalidRating(RatingValidatorErrors(rating))
      ensures res.Ok? ==>
        res.value == old(nextId) && feedbacks == old(feedbacks) + [Row(res.value, Feedbacks(job, author, comment, rating, now))]
    {
      var errs := RatingValidatorErrors(rating);
      if errs != [] {
        return Err(InvalidRating(errs));
      }
      if job !in Ids(jobs) || author !in Ids(candidates) {
        return Err(ForeignKeyViolation);
      }
      var row := Row(nextId, Feedbacks(job, author, comment, rating, now));
      AppendFresh(feedbacks, row, nextId, RowId);
      feedbacks, nextId := feedbacks + [row], nextId + 1;
      res := Ok(row.id);
    }

    /**
     * Saving an existing Feedbacks row: the editable columns take the new
     * values, the id and created_at stay as they were.
     */
    method SaveFeedbacks(id: Id, job: Id, author: Id, comment: string, rating: int)
      returns (res: Result<Id, StoreError>)
      requires Valid()
      requires id in Ids(feedbacks)
      modifies this`feedbacks
      ensures Valid()
      ensures res.Ok? <==> RatingValidatorErrors(rating) == [] && job in Ids(jobs) && author in Ids(candidates)
      ensures res.Err? ==> feedbacks == old(feedbacks)
      ensures res.Ok? ==> res.value == id
      ensures res.Ok? ==>
        feedbacks == Replace(old(feedbacks), id, Feedbacks(job, author, comment, rating, Get(old(feedbacks), id).value.createdAt))
    {
      var errs := RatingValidatorErrors(rating);
      if errs != [] {
        return Err(InvalidRating(errs));
      }
      if job !in Ids(jobs) || author !in Ids(candidates) {
        return Err(ForeignKeyViolation);
      }
      var stamp := Get(feedbacks, id).value.createdAt;
      var v := Feedbacks(job, author, comment, rating, stamp);
      ReplaceKeyed(feedbacks, id, v, nextId);
      ReplaceFeedbacksReference(feedbacks, id, v, Ids(jobs), Ids(candidates));
      feedbacks := Replace(feedbacks, id, v);
      res := Ok(id);
    }

    /** feedback.delete(): removes that row and no other. */
    method DeleteFeedbacks(id: Id) returns (found: bool)
      requires Valid()
      modifies this`feedbacks
      ensures Valid()
      ensures found <==> id in old(Ids(feedbacks))
      ensures forall f :: f in feedbacks <==> f in old(feedbacks) && f.id != id
    {
      found := id in Ids(feedbacks);
      FilterKeyed(feedbacks, (x: Row<Feedbacks>) => x.id != id, nextId);
      feedbacks := RemoveId(feedbacks, id);
    }

    /** Saving a new feedback.Feedback row (the second feedback app's table). */
    method CreateFeedback(job: Id, author: Id, comment: string, rating: int, now: int)
      returns (res: Result<Id, StoreError>)
      requires Valid()
      modifies this`jobFeedback, this`nextId
      ensures Valid()
      ensures res.Ok? <==> RatingValidatorErrors(rating) == [] && job in Ids(jobs) && author in Ids(candidates)
      ensures res.Err? ==> jobFeedback == old(jobFeedback)
      ensures res.Ok? ==>
        res.value == old(nextId) && jobFeedback == old(jobFeedback) + [Row(res.value, Feedbacks(job, author, comment, rating, now))]
    {
      var errs := RatingValidatorErrors(rating);
      if errs != [] {
        return Err(InvalidRating(errs));
      }
      if job !in Ids(jobs) || author !in Ids(candidates) {
        return Err(ForeignKeyViolation);
      }
      var row := Row(nextId, Feedbacks(job, author, comment, rating, now));
      AppendFresh(jobFeedback, row, nextId, RowId);
      jobFeedback, nextId := jobFeedback + [row], nextId + 1;
      res := Ok(row.id);
    }

    // ---------------------------------------------------------------- deletes

    /**
     * Deletes the JobRecords `doomed` selects together with every feedback row
     * (in both feedback tables) whose job was among them: on_delete=CASCADE.
     */
    method RemoveJobsWhere(doomed: Row<JobRecord> -> bool)
      requires Valid()
      modifies this`jobs, this`feedbacks, this`jobFeedback
      ensures Valid()
      ensures forall r :: r in jobs <==> r in old(jobs) && !doomed(r)
      ensures forall f :: f in feedbacks <==> f in old(feedbacks) && f.val.job in Ids(jobs)
      ensures forall f :: f in jobFeedback <==> f in old(jobFeedback) && f.val.job in Ids(jobs)
    {
      ghost var jobIds := Ids(jobs);
      DropJobs(doomed);
      DropOrphanFeedback(jobIds);
    }

    /** The first half of the cascade: the JobRecords go, the feedback rows citing them are still there. */
    method DropJobs(doomed: Row<JobRecord> -> bool)
      requires Valid()
      modifies this`jobs
      ensures CatalogValid() && JobsValid()
      ensures Keyed(feedbacks, nextId) && FeedbacksReference(feedbacks, old(Ids(jobs)), Ids(candidates))
      ensures Keyed(jobFeedback, nextId) && FeedbacksReference(jobFeedback, old(Ids(jobs)), Ids(candidates))
      ensures forall r :: r in jobs <==> r in old(jobs) && !doomed(r)
    {
      var keep := (r: Row<JobRecord>) => !doomed(r);
      KeepJobs(jobs, keep, nextId, KeySet(contracts, ContractCode), Ids(jobTitles), Ids(locations),
               Ids(skills), Ids(industries), Ids(candidates));
      jobs := Filter(jobs, keep);
    }

    /** The second half of the cascade: the feedback rows whose job is gone. */
    method DropOrphanFeedback(ghost oldJobIds: set<Id>)
      requires CatalogValid() && JobsValid()
      requires Keyed(feedbacks, nextId) && FeedbacksReference(feedbacks, oldJobIds, Ids(candidates))
      requires Keyed(jobFeedback, nextId) && FeedbacksReference(jobFeedback, oldJobIds, Ids(candidates))
      modifies this`feedbacks, this`jobFeedback
      ensures Valid()
      ensures forall f :: f in feedbacks <==> f in old(feedbacks) && f.val.job in Ids(jobs)
      ensures forall f :: f in jobFeedback <==> f in old(jobFeedback) && f.val.job in Ids(jobs)
    {
      KeepFeedbacks(feedbacks, nextId, oldJobIds, Ids(jobs), Ids(candidates));
      KeepFeedbacks(jobFeedback, nextId, oldJobIds, Ids(jobs), Ids(candidates));
      feedbacks, jobFeedback := ForJobs(feedbacks, Ids(jobs)), ForJobs(jobFeedback, Ids(jobs));
    }

    /** Deletes the rows `doomed` selects from both feedback tables. */
    method RemoveFeedbacksWhere(doomed: Row<Feedbacks> -> bool)
      requires Valid()
      modifies this`feedbacks, this`jobFeedback
      ensures Valid()
      ensures forall f :: f in feedbacks <==> f in old(feedbacks) && !doomed(f)
      ensures forall f :: f in jobFeedback <==> f in old(jobFeedback) && !doomed(f)
    {
      SpareFeedbacks(feedbacks, doomed, nextId, Ids(jobs), Ids(candidates));
      SpareFeedbacks(jobFeedback, doomed, nextId, Ids(jobs), Ids(candidates));
      feedbacks := Filter(feedbacks, Spares(doomed));
      jobFeedback := Filter(jobFeedback, Spares(doomed));
    }

    /** Deleting a JobRecord cascades to its feedback rows in both feedback tables. */
    method DeleteJobRecord(id: Id) returns (found: bool)
      requires Valid()
      modifies this`jobs, this`feedbacks, this`jobFeedback
      ensures Valid()
      ensures found <==> id in old(Ids(jobs))
      ensures forall r :: r in jobs <==> r in old(jobs) && r.id != id
      ensures forall f :: f in feedbacks <==> f in old(feedbacks) && f.val.job != id
      ensures forall f :: f in jobFeedback <==> f in old(jobFeedback) && f.val.job != id
    {
      found := id in Ids(jobs);
      ghost var before, fbBefore, jfBefore := jobs, feedbacks, jobFeedback;
      RemoveJobsWhere((r: Row<JobRecord>) => r.id == id);
      MembersIds(jobs, before, id);
      CitedJobs(fbBefore, Ids(before), Ids(candidates));
      CitedJobs(jfBefore, Ids(before), Ids(candidates));
    }

    /** Deleting a JobTitle cascades to its JobRecords and, through them, to their feedback. */
    method DeleteJobTitle(id: Id) returns (found: bool)
      requires Valid()
      modifies this`jobTitles, this`jobs, this`feedbacks, this`jobFeedback
      ensures Valid()
      ensures found <==> id in old(Ids(jobTitles))
      ensures forall t :: t in jobTitles <==> t in old(jobTitles) && t.id != id
      ensures forall r :: r in jobs <==> r in old(jobs) && r.val.jobTitle != id
      ensures forall f :: f in feedbacks <==> f in old(feedbacks) && f.val.job in Ids(jobs)
      ensures forall f :: f in jobFeedback <==> f in old(jobFeedback) && f.val.job in Ids(jobs)
    {
      found := id in Ids(jobTitles);
      RemoveJobsWhere((r: Row<JobRecord>) => r.val.jobTitle == id);
      FilterKeyed(jobTitles, (x: Row<JobTitle>) => x.id != id, nextId);
      FilterDistinctBy(jobTitles, (x: Row<JobTitle>) => x.id != id, TitleName);
      RemoveIdIds(jobTitles, id);
      jobTitles := RemoveId(jobTitles, id);
      forall i | 0 <= i < |jobs| ensures jobs[i].val.jobTitle in Ids(jobTitles) {
        assert jobs[i] in jobs;
      }
    }

    /** Deleting a Location cascades to the JobRecords using it in either role. */
    method DeleteLocation(id: Id) returns (found: bool)
      requires Valid()
      modifies this`locations, this`jobs, this`feedbacks, this`jobFeedback
      ensures Valid()
      ensures found <==> id in old(Ids(locations))
      ensures forall l :: l in locations <==> l in old(locations) && l.id != id
      ensures forall r :: r in jobs <==>
        r in old(jobs) && r.val.employeeResidence != id && r.val.companyLocation != id
      ensures forall f :: f in feedbacks <==> f in old(feedbacks) && f.val.job in Ids(jobs)
      ensures forall f :: f in jobFeedback <==> f in old(jobFeedback) && f.val.job in Ids(jobs)
    {
      found := id in Ids(locations);
      RemoveJobsWhere((r: Row<JobRecord>) => r.val.employeeResidence == id || r.val.companyLocation == id);
      FilterKeyed(locations, (x: Row<Location>) => x.id != id, nextId);
      FilterDistinctBy(locations, (x: Row<Location>) => x.id != id, CountryCode);
      RemoveIdIds(locations, id);
      locations := RemoveId(locations, id);
      forall i | 0 <= i < |jobs|
        ensures jobs[i].val.employeeResidence in Ids(locations) && jobs[i].val.companyLocation in Ids(locations)
      {
        assert jobs[i] in jobs;
      }
    }

    /** Deleting a Contract cascades to the JobRecords using it in either role. */
    method DeleteContract(code: string) returns (found: bool)
      requires Valid()
      modifies this`contracts, this`jobs, this`feedbacks, this`jobFeedback
      ensures Valid()
      ensures found <==> code in old(KeySet(contracts, ContractCode))
      ensures forall c :: c in contracts <==> c in old(contracts) && c.typeCode != code
      ensures forall r :: r in jobs <==>
        r in old(jobs) && r.val.experienceLevel != code && r.val.employmentType != code
      ensures forall f :: f in feedbacks <==> f in old(feedbacks) && f.val.job in Ids(jobs)
      ensures forall f :: f in jobFeedback <==> f in old(jobFeedback) && f.val.job in Ids(jobs)
    {
      found := code in KeySet(contracts, ContractCode);
      RemoveJobsWhere((r: Row<JobRecord>) => r.val.experienceLevel == code || r.val.employmentType == code);
      var keep := (c: Contract) => c.typeCode != code;
      FilterDistinctBy(contracts, keep, ContractCode);
      FilterOutKey(contracts, keep, ContractCode, code);
      contracts := Filter(contracts, keep);
      forall i | 0 <= i < |jobs|
        ensures jobs[i].val.experienceLevel in KeySet(contracts, ContractCode)
        ensures jobs[i].val.employmentType in KeySet(contracts, ContractCode)
      {
        assert jobs[i] in jobs;
      }
    }

    /**
     * Deleting a Candidate cascades to the JobRecords naming it, to the
     * feedback it authored and to the feedback of the removed JobRecords.
     */
    method DeleteCandidate(id: Id) returns (found: bool)
      requires Valid()
      modifies this`candidates, this`jobs, this`feedbacks, this`jobFeedback
      ensures Valid()
      ensures found <==> id in old(Ids(candidates))
      ensures forall c :: c in candidates <==> c in old(candidates) && c.id != id
      ensures forall r :: r in jobs <==> r in old(jobs) && r.val.candidate != Some(id)
      ensures forall f :: f in feedbacks <==> f in old(feedbacks) && f.val.authorName != id && f.val.job in Ids(jobs)
      ensures forall f :: f in jobFeedback <==>
        f in old(jobFeedback) && f.val.authorName != id && f.val.job in Ids(jobs)
    {
      found := id in Ids(candidates);
      RemoveJobsWhere((r: Row<JobRecord>) => r.val.candidate == Some(id));
      RemoveFeedbacksWhere((f: Row<Feedbacks>) => f.val.authorName == id);
      FilterKeyed(candidates, (x: Row<Candidate>) => x.id != id, nextId);
      FilterDistinctBy(candidates, (x: Row<Candidate>) => x.id != id, CandidateEmail);
      RemoveIdIds(candidates, id);
      WithoutCandidateJobs(jobs, id, KeySet(contracts, ContractCode), Ids(jobTitles), Ids(locations),
                           Ids(skills), Ids(industries), Ids(candidates));
      WithoutAuthorFeedbacks(feedbacks, id, Ids(jobs), Ids(candidates));
      WithoutAuthorFeedbacks(jobFeedback, id, Ids(jobs), Ids(candidates));
      candidates := RemoveId(candidates, id);
    }

    /** Deleting an Industry keeps its JobRecords and sets their industry to null (SET_NULL). */
    method DeleteIndustry(id: Id) returns (found: bool)
      requires Valid()
      modifies this`industries, this`jobs
      ensures Valid()
      ensures found <==> id in old(Ids(industries))
      ensures forall x :: x in industries <==> x in old(industries) && x.id != id
      ensures |jobs| == |old(jobs)|
      ensures forall i :: 0 <= i < |jobs| ==>
        jobs[i].id == old(jobs[i].id)
        && jobs[i].val == if old(jobs[i].val.industry) == Some(id) then old(jobs[i].val).(industry := None)
                          else old(jobs[i].val)
    {
      found := id in Ids(industries);
      FilterKeyed(industries, (x: Row<Industry>) => x.id != id, nextId);
      FilterDistinctBy(industries, (x: Row<Industry>) => x.id != id, IndustryName);
      RemoveIdIds(industries, id);
      MapJobsKeyed(jobs, UnlinkIndustry(id), nextId);
      UnlinkIndustryReference(jobs, id, KeySet(contracts, ContractCode), Ids(jobTitles), Ids(locations),
                              Ids(skills), Ids(industries), Ids(candidates));
      jobs := MapVals(jobs, UnlinkIndustry(id));
      industries := RemoveId(industries, id);
    }

    /** Deleting a Skill keeps every JobRecord and drops the skill from their skill sets. */
    method DeleteSkill(id: Id) returns (found: bool)
      requires Valid()
      modifies this`skills, this`jobs
      ensures Valid()
      ensures found <==> id in old(Ids(skills))
      ensures forall x :: x in skills <==> x in old(skills) && x.id != id
      ensures |jobs| == |old(jobs)|
      ensures forall i :: 0 <= i < |jobs| ==>
        jobs[i].id == old(jobs[i].id) && jobs[i].val == old(jobs[i].val).(skills := old(jobs[i].val.skills) - {id})
    {
      found := id in Ids(skills);
      FilterKeyed(skills, (x: Row<Skill>) => x.id != id, nextId);
      FilterDistinctBy(skills, (x: Row<Skill>) => x.id != id, SkillName);
      RemoveIdIds(skills, id);
      MapJobsKeyed(jobs, UnlinkSkill(id), nextId);
      UnlinkSkillReference(jobs, id, KeySet(contracts, ContractCode), Ids(jobTitles), Ids(locations),
                           Ids(skills), Ids(industries), Ids(candidates));
      jobs := MapVals(jobs, UnlinkSkill(id));
      skills := RemoveId(skills, id);
    }

    /** Deleting a Category touches no other table: nothing references Category. */
    method DeleteCategory(id: Id) returns (found: bool)
      requires Valid()
      modifies this`categories
      ensures Valid()
      ensures found <==> id in old(Ids(categories))
      ensures forall x :: x in categories <==> x in old(categories) && x.id != id
    {
      found := id in Ids(categories);
      FilterKeyed(categories, (x: Row<Category>) => x.id != id, nextId);
      FilterDistinctBy(categories, (x: Row<Category>) => x.id != id, CategoryName);
      categories := RemoveId(categories, id);
    }
  }

  /** In a table whose rows cite jobs in `jobIds`, a row's job is always in `jobIds`. */
  lemma CitedJobs(rows: seq<Row<Feedbacks>>, jobIds: set<Id>, authorIds: set<Id>)
    requires FeedbacksReference(rows, jobIds, authorIds)
    ensures forall f :: f in rows ==> f.val.job in jobIds
  {
    forall f | f in rows ensures f.val.job in jobIds {
      var i :| 0 <= i < |rows| && rows[i] == f;
    }
  }


  /** Keeping some of the JobRecords keeps their foreign keys resolvable. */
  lemma FilterJobsReference(jobs: seq<Row<JobRecord>>, p: Row<JobRecord> -> bool, contractCodes: set<string>,
                            titleIds: set<Id>, locationIds: set<Id>, skillIds: set<Id>, industryIds: set<Id>,
                            candidateIds: set<Id>)
    requires JobsReference(jobs, contractCodes, titleIds, locationIds, skillIds, industryIds, candidateIds)
    ensures JobsReference(Filter(jobs, p), contractCodes, titleIds, locationIds, skillIds, industryIds, candidateIds)
  {
    var r := Filter(jobs, p);
    forall i | 0 <= i < |r|
      ensures References(r[i].val, contractCodes, titleIds, locationIds, skillIds, industryIds, candidateIds)
    {
      assert r[i] in jobs;
    }
  }

  /**
   * Keeping the feedback rows `p` selects, when every kept row's author is in
   * `authorIds` and its job in `jobIds`, gives a table that references them.
   */
  lemma FilterFeedbacksReference(rows: seq<Row<Feedbacks>>, p: Row<Feedbacks> -> bool, authorIds: set<Id>, jobIds: set<Id>)
    requires forall i :: 0 <= i < |rows| && p(rows[i]) ==>
      rows[i].val.job in jobIds && rows[i].val.authorName in authorIds && RatingValidatorErrors(rows[i].val.rating) == []
    ensures FeedbacksReference(Filter(rows, p), jobIds, authorIds)
  {
    var r := Filter(rows, p);
    forall i | 0 <= i < |r| ensures r[i].val.job in jobIds && r[i].val.authorName in authorIds
      && RatingValidatorErrors(r[i].val.rating) == []
    {
      assert r[i] in rows;
    }
  }

  /** Keeping some JobRecords keeps their ids, their unique triples and their references. */
  lemma KeepJobs(jobs: seq<Row<JobRecord>>, keep: Row<JobRecord> -> bool, next: Id, contractCodes: set<string>,
                 titleIds: set<Id>, locationIds: set<Id>, skillIds: set<Id>, industryIds: set<Id>,
                 candidateIds: set<Id>)
    requires Keyed(jobs, next) && UniqueTogether(jobs)
    requires JobsReference(jobs, contractCodes, titleIds, locationIds, skillIds, industryIds, candidateIds)
    ensures Keyed(Filter(jobs, keep), next) && UniqueTogether(Filter(jobs, keep))
    ensures JobsReference(Filter(jobs, keep), contractCodes, titleIds, locationIds, skillIds, industryIds, candidateIds)
  {
    FilterKeyed(jobs, keep, next);
    FilterDistinctBy(jobs, keep, RowKey);
    FilterJobsReference(jobs, keep, contractCodes, titleIds, locationIds, skillIds, industryIds, candidateIds);
  }

  /** Rewriting every JobRecord without touching its unique triple keeps its id and unique_together. */
  lemma MapJobsKeyed(jobs: seq<Row<JobRecord>>, f: JobRecord -> JobRecord, next: Id)
    requires Keyed(jobs, next) && UniqueTogether(jobs)
    requires forall r :: Key(f(r)) == Key(r)
    ensures Keyed(MapVals(jobs, f), next) && UniqueTogether(MapVals(jobs, f))
    ensures Ids(MapVals(jobs, f)) == Ids(jobs)
  {
    var m := MapVals(jobs, f);
    forall i, j | 0 <= i < j < |m| ensures RowKey(m[i]) != RowKey(m[j]) {
      assert RowKey(jobs[i]) != RowKey(jobs[j]);
    }
    forall i, j | 0 <= i < j < |m| ensures RowId(m[i]) != RowId(m[j]) {
      assert RowId(jobs[i]) != RowId(jobs[j]);
    }
    forall k | k in Ids(jobs) ensures k in Ids(m) {
      var i :| 0 <= i < |jobs| && RowId(jobs[i]) == k;
      assert RowId(m[i]) == k;
    }
  }

  /** on_delete=SET_NULL for JobRecord.industry. */
  function UnlinkIndustry(id: Id): JobRecord -> JobRecord {
    (r: JobRecord) => if r.industry == Some(id) then r.(industry := None) else r
  }

  /** After SET_NULL no JobRecord refers to the deleted industry. */
  lemma UnlinkIndustryReference(jobs: seq<Row<JobRecord>>, id: Id, contractCodes: set<string>, titleIds: set<Id>,
                                locationIds: set<Id>, skillIds: set<Id>, industryIds: set<Id>, candidateIds: set<Id>)
    requires JobsReference(jobs, contractCodes, titleIds, locationIds, skillIds, industryIds, candidateIds)
    ensures JobsReference(MapVals(jobs, UnlinkIndustry(id)), contractCodes, titleIds, locationIds, skillIds,
                          industryIds - {id}, candidateIds)
  {
  }

  /** Removing a skill from every JobRecord.skills (the many-to-many rows go with it). */
  function UnlinkSkill(id: Id): JobRecord -> JobRecord {
    (r: JobRecord) => r.(skills := r.skills - {id})
  }

  /** Afterwards no JobRecord refers to the deleted skill. */
  lemma UnlinkSkillReference(jobs: seq<Row<JobRecord>>, id: Id, contractCodes: set<string>, titleIds: set<Id>,
                             locationIds: set<Id>, skillIds: set<Id>, industryIds: set<Id>, candidateIds: set<Id>)
    requires JobsReference(jobs, contractCodes, titleIds, locationIds, skillIds, industryIds, candidateIds)
    ensures JobsReference(MapVals(jobs, UnlinkSkill(id)), contractCodes, titleIds, locationIds,
                          skillIds - {id}, industryIds, candidateIds)
  {
  }

  /** Once no JobRecord names the candidate, the references hold without it. */
  lemma WithoutCandidateJobs(jobs: seq<Row<JobRecord>>, id: Id, contractCodes: set<string>, titleIds: set<Id>,
                             locationIds: set<Id>, skillIds: set<Id>, industryIds: set<Id>, candidateIds: set<Id>)
    requires JobsReference(jobs, contractCodes, titleIds, locationIds, skillIds, industryIds, candidateIds)
    requires forall r :: r in jobs ==> r.val.candidate != Some(id)
    ensures JobsReference(jobs, contractCodes, titleIds, locationIds, skillIds, industryIds, candidateIds - {id})
  {
    forall i | 0 <= i < |jobs| ensures jobs[i].val.candidate != Some(id) {
      assert jobs[i] in jobs;
    }
  }

  /** Once no feedback row is by the candidate, the references hold without it. */
  lemma WithoutAuthorFeedbacks(rows: seq<Row<Feedbacks>>, id: Id, jobIds: set<Id>, authorIds: set<Id>)
    requires FeedbacksReference(rows, jobIds, authorIds)
    requires forall f :: f in rows ==> f.val.authorName != id
    ensures FeedbacksReference(rows, jobIds, authorIds - {id})
  {
    forall i | 0 <= i < |rows| ensures rows[i].val.authorName != id {
      assert rows[i] in rows;
    }
  }

  /** The feedback row is about one of the jobs `ids`. */
  function CitesJobs(ids: set<Id>): Row<Feedbacks> -> bool {
    (f: Row<Feedbacks>) => f.val.job in ids
  }

  /** The feedback rows about the jobs `ids`, in table order. */
  function ForJobs(rows: seq<Row<Feedbacks>>, ids: set<Id>): (r: seq<Row<Feedbacks>>)
    ensures forall f :: f in r <==> f in rows && f.val.job in ids
  {
    Filter(rows, CitesJobs(ids))
  }

  /** Keeping the feedback rows whose job survives keeps their ids and their references. */
  lemma KeepFeedbacks(rows: seq<Row<Feedbacks>>, next: Id, oldJobIds: set<Id>, jobIds: set<Id>, authorIds: set<Id>)
    requires Keyed(rows, next) && FeedbacksReference(rows, oldJobIds, authorIds)
    ensures Keyed(ForJobs(rows, jobIds), next)
    ensures FeedbacksReference(ForJobs(rows, jobIds), jobIds, authorIds)
  {
    FilterKeyed(rows, CitesJobs(jobIds), next);
    FilterFeedbacksReference(rows, CitesJobs(jobIds), authorIds, jobIds);
  }

  /** The feedback row is not one of the doomed ones. */
  function Spares(doomed: Row<Feedbacks> -> bool): Row<Feedbacks> -> bool {
    (f: Row<Feedbacks>) => !doomed(f)
  }

  /** Deleting some feedback rows keeps unique ids and valid references for the rest. */
  lemma SpareFeedbacks(rows: seq<Row<Feedbacks>>, doomed: Row<Feedbacks> -> bool, next: Id, jobIds: set<Id>,
                       authorIds: set<Id>)
    requires Keyed(rows, next) && FeedbacksReference(rows, jobIds, authorIds)
    ensures Keyed(Filter(rows, Spares(doomed)), next)
    ensures FeedbacksReference(Filter(rows, Spares(doomed)), jobIds, authorIds)
  {
    FilterKeyed(rows, Spares(doomed), next);
    FilterFeedbacksReference(rows, Spares(doomed), authorIds, jobIds);
  }

  /** Updating one feedback row with a valid value keeps every reference. */
  lemma ReplaceFeedbacksReference(rows: seq<Row<Feedbacks>>, id: Id, v: Feedbacks, jobIds: set<Id>, authorIds: set<Id>)
    requires FeedbacksReference(rows, jobIds, authorIds)
    requires v.job in jobIds && v.authorName in authorIds && RatingValidatorErrors(v.rating) == []
    ensures FeedbacksReference(Replace(rows, id, v), jobIds, authorIds)
  {
  }
}
