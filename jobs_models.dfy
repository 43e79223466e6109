/**
 * The job catalog of asite/jobs/models.py: the reference entities, the
 * JobRecord row, its field choices and its unique_together constraint.
 * The mutable tables themselves live in Store.Database.
 */
module JobsModels {
  import opened Tables

  datatype Category = Category(name: string)

  /** type_code is Contract's primary key, so a Contract table has no ids. */
  datatype Contract = Contract(typeCode: string, description: string)

  datatype Skill = Skill(name: string)

  datatype Industry = Industry(name: string)

  datatype JobTitle = JobTitle(name: string)

  datatype Location = Location(countryCode: string)

  datatype Candidate = Candidate(name: string, email: string, location: string)

  /**
   * One job posting. Foreign keys are ids (experience_level and
   * employment_type hold a Contract's type_code); salaries are in cents.
   * salary_currency and company_size are free strings: their choices are only
   * checked by ChoiceErrors, never by an insert.
   */
  datatype JobRecord = JobRecord(
    workYear: int,
    experienceLevel: string,
    employmentType: string,
    jobTitle: Id,
    salary: int,
    salaryCurrency: string,
    salaryInUsd: int,
    employeeResidence: Id,
    remoteRatio: int,
    companyLocation: Id,
    companySize: string,
    skills: set<Id>,
    industry: Option<Id>,
    candidate: Option<Id>)

  // The unique column of each catalog table.
  function CategoryName(r: Row<Category>): string { r.val.name }
  function ContractCode(c: Contract): string { c.typeCode }
  function SkillName(r: Row<Skill>): string { r.val.name }
  function IndustryName(r: Row<Industry>): string { r.val.name }
  function TitleName(r: Row<JobTitle>): string { r.val.name }
  function CountryCode(r: Row<Location>): string { r.val.countryCode }
  function CandidateEmail(r: Row<Candidate>): string { r.val.email }

  /** The columns of unique_together: (job_title, work_year, company_location). */
  type JobKey = (Id, int, Id)

  function Key(r: JobRecord): JobKey { (r.jobTitle, r.workYear, r.companyLocation) }

  function RowKey(r: Row<JobRecord>): JobKey { Key(r.val) }

  /** No two JobRecords share the unique_together triple. */
  predicate UniqueTogether(jobs: seq<Row<JobRecord>>) {
    DistinctBy(jobs, RowKey)
  }

  /** Inserting `r` next to `jobs` would violate unique_together. */
  predicate Clashes(jobs: seq<Row<JobRecord>>, r: JobRecord) {
    Key(r) in KeySet(jobs, RowKey)
  }

  /** Every foreign key of `r` names an existing row (and every skill exists). */
  predicate References(r: JobRecord, contractCodes: set<string>, titleIds: set<Id>, locationIds: set<Id>,
                       skillIds: set<Id>, industryIds: set<Id>, candidateIds: set<Id>) {
    && r.experienceLevel in contractCodes
    && r.employmentType in contractCodes
    && r.jobTitle in titleIds
    && r.employeeResidence in locationIds
    && r.companyLocation in locationIds
    && r.skills <= skillIds
    && (r.industry.Some? ==> r.industry.value in industryIds)
    && (r.candidate.Some? ==> r.candidate.value in candidateIds)
  }

  predicate JobsReference(jobs: seq<Row<JobRecord>>, contractCodes: set<string>, titleIds: set<Id>,
                          locationIds: set<Id>, skillIds: set<Id>, industryIds: set<Id>, candidateIds: set<Id>) {
    forall i :: 0 <= i < |jobs| ==>
      References(jobs[i].val, contractCodes, titleIds, locationIds, skillIds, industryIds, candidateIds)
  }

  const CurrencyChoices: seq<string> := ["USD", "EUR", "GBP"]

  const CompanySizeChoices: seq<string> := ["S", "M", "L"]

  /** A field of JobRecord whose value is not among its declared choices. */
  datatype ChoiceError = InvalidSalaryCurrency(currency: string) | InvalidCompanySize(size: string)

  /**
   * The choices part of model validation (full_clean): one error per field
   * whose value is not a declared choice, in field order. No other field has
   * a declared range; in particular remote_ratio is unconstrained.
   */
  function ChoiceErrors(r: JobRecord): (errs: seq<ChoiceError>)
    ensures InvalidSalaryCurrency(r.salaryCurrency) in errs <==> r.salaryCurrency !in {"USD", "EUR", "GBP"}
    ensures InvalidCompanySize(r.companySize) in errs <==> r.companySize !in {"S", "M", "L"}
    ensures forall e :: e in errs ==> e == InvalidSalaryCurrency(r.salaryCurrency) || e == InvalidCompanySize(r.companySize)
    ensures |errs| == (if r.salaryCurrency in {"USD", "EUR", "GBP"} then 0 else 1)
                    + (if r.companySize in {"S", "M", "L"} then 0 else 1)
    ensures |errs| == 2 ==> errs[0] == InvalidSalaryCurrency(r.salaryCurrency)
    ensures errs == [] <==> r.salaryCurrency in {"USD", "EUR", "GBP"} && r.companySize in {"S", "M", "L"}
  {
    (if r.salaryCurrency in CurrencyChoices then [] else [InvalidSalaryCurrency(r.salaryCurrency)])
    + (if r.companySize in CompanySizeChoices then [] else [InvalidCompanySize(r.companySize)])
  }

  /** A record passes validation exactly when it has no choice error. */
  predicate Validated(r: JobRecord) {
    ChoiceErrors(r) == []
  }

  /**
   * Only the three key fields decide a clash: two records with the same triple
   * clash with the same table, whatever their other fields (salary, currency,
   * residence, ...), and a record clashes iff some stored row has its triple.
   */
  lemma ClashDependsOnlyOnKey(jobs: seq<Row<JobRecord>>, r: JobRecord, s: JobRecord)
    requires Key(r) == Key(s)
    ensures Clashes(jobs, r) <==> Clashes(jobs, s)
    ensures Clashes(jobs, r) <==> exists i :: 0 <= i < |jobs| && Key(jobs[i].val) == Key(r)
  {
  }

  /**
   * Two records may coexist exactly when they differ in job_title, work_year
   * or company_location.
   */
  lemma TwoRecordsCoexist(a: Row<JobRecord>, b: Row<JobRecord>)
    ensures UniqueTogether([a, b]) <==>
      (a.val.jobTitle != b.val.jobTitle || a.val.workYear != b.val.workYear
       || a.val.companyLocation != b.val.companyLocation)
  {
    assert [a, b][0] == a && [a, b][1] == b;
  }

  /** remote_ratio takes no part in validation: any value passes if the rest does. */
  lemma RemoteRatioUnconstrained(r: JobRecord, ratio: int)
    ensures Validated(r.(remoteRatio := ratio)) <==> Validated(r)
  {
  }
}
