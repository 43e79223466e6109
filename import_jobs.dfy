/**
 * import_jobs_from_csv of asite/jobs/import_jobs.py: every CSV row
 * get_or_creates its JobTitle, its two Locations and its two Contracts, then
 * creates one JobRecord, counting a unique_together collision as a skipped
 * duplicate. The rows arrive already parsed (see CsvRow).
 */
module ImportJobs {
  import opened Tables
  import opened JobsModels
  import opened Store

  /**
   * One line of the CSV file with its columns converted as the import does
   * (int(...) for years and the remote ratio; salaries in cents).
   */
  datatype CsvRow = CsvRow(
    jobTitle: string,
    employeeResidence: string,
    companyLocation: string,
    experienceLevel: string,
    employmentType: string,
    workYear: int,
    salary: int,
    salaryCurrency: string,
    salaryInUsd: int,
    remoteRatio: int,
    companySize: string)

  /** The four counters the import prints at the end. */
  datatype ImportSummary = ImportSummary(
    jobTitlesCreated: nat,
    locationsCreated: nat,
    jobRecordsCreated: nat,
    duplicatesSkipped: nat)

  // The columns whose values become catalog rows.
  function CsvTitle(r: CsvRow): string { r.jobTitle }
  function CsvResidence(r: CsvRow): string { r.employeeResidence }
  function CsvCompany(r: CsvRow): string { r.companyLocation }
  function CsvExperience(r: CsvRow): string { r.experienceLevel }
  function CsvEmployment(r: CsvRow): string { r.employmentType }

  /** The country codes the rows name, as residence or as company location. */
  function LocationCodes(rows: seq<CsvRow>): set<string> {
    KeySet(rows, CsvResidence) + KeySet(rows, CsvCompany)
  }

  /** The contract type codes the rows name, as experience level or as employment type. */
  function ContractCodes(rows: seq<CsvRow>): set<string> {
    KeySet(rows, CsvExperience) + KeySet(rows, CsvEmployment)
  }

  /** The default description of a Contract first met as an experience level. */
  function ExperienceDescription(code: string): string { "Experience Level: " + code }

  /** The default description of a Contract first met as an employment type. */
  function EmploymentDescription(code: string): string { "Employment Type: " + code }

  /**
   * The description a contract code gets when the import creates it: the
   * default of the first column that names it, row by row, the experience
   * level before the employment type ("" when no row names it).
   */
  function FirstDescription(code: string, rows: seq<CsvRow>): string {
    if rows == [] then ""
    else if rows[0].experienceLevel == code then ExperienceDescription(code)
    else if rows[0].employmentType == code then EmploymentDescription(code)
    else FirstDescription(code, rows[1..])
  }

  /** Every contract code the rows name that was not stored before is stored with its first description. */
  ghost predicate DescribedFirst(contracts: seq<Contract>, oldCodes: set<string>, rows: seq<CsvRow>) {
    forall code :: code in ContractCodes(rows) && code !in oldCodes ==>
      Contract(code, FirstDescription(code, rows)) in contracts
  }

  /**
   * The JobRecord created for a CSV row, given the ids its title and
   * locations resolved to: no candidate, no industry, no skills.
   */
  function RecordOf(row: CsvRow, title: Id, residence: Id, company: Id): (r: JobRecord)
    ensures Key(r) == (title, row.workYear, company)
    ensures r.skills == {} && r.industry.None? && r.candidate.None?
  {
    JobRecord(row.workYear, row.experienceLevel, row.employmentType, title, row.salary, row.salaryCurrency,
              row.salaryInUsd, residence, row.remoteRatio, company, row.companySize, {}, None, None)
  }

  /** `b` starts with `a`: a table that only had rows appended. */
  ghost predicate Extends<T>(a: seq<T>, b: seq<T>) {
    |a| <= |b| && b[..|a|] == a
  }

  /** `b` is `a` followed by `n` new rows. */
  ghost predicate Grows<T>(a: seq<T>, b: seq<T>, n: nat) {
    |b| == |a| + n && Extends(a, b)
  }

  /** `r` carries the unique_together triple the CSV row names (by title name and country code). */
  predicate Names(r: JobRecord, row: CsvRow, titles: seq<Row<JobTitle>>, locations: seq<Row<Location>>) {
    && Row(r.jobTitle, JobTitle(row.jobTitle)) in titles
    && r.workYear == row.workYear
    && Row(r.companyLocation, Location(row.companyLocation)) in locations
  }

  /** `r` is the record the import builds from the CSV row. */
  predicate Represents(r: JobRecord, row: CsvRow, titles: seq<Row<JobTitle>>, locations: seq<Row<Location>>) {
    && Names(r, row, titles, locations)
    && Row(r.employeeResidence, Location(row.employeeResidence)) in locations
    && r == RecordOf(row, r.jobTitle, r.employeeResidence, r.companyLocation)
  }

  /** Some stored record already has the CSV row's triple. */
  predicate AlreadyImported(jobs: seq<Row<JobRecord>>, row: CsvRow, titles: seq<Row<JobTitle>>,
                            locations: seq<Row<Location>>) {
    exists j :: j in jobs && Names(j.val, row, titles, locations)
  }

  /** A Contract the import may add for these rows, with its default description. */
  predicate DefaultContract(c: Contract, rows: seq<CsvRow>) {
    exists r :: r in rows &&
      (c == Contract(r.experienceLevel, ExperienceDescription(r.experienceLevel))
       || c == Contract(r.employmentType, EmploymentDescription(r.employmentType)))
  }

  /** A member's key is among the keys. */
  lemma MemberKey<T, K>(s: seq<T>, x: T, key: T -> K)
    requires x in s
    ensures key(x) in KeySet(s, key)
  {
    var i :| 0 <= i < |s| && s[i] == x;
  }

  /** Under a UNIQUE constraint two members with the same key are the same row. */
  lemma SameKeySameMember<T, K>(s: seq<T>, x: T, y: T, key: T -> K)
    requires DistinctBy(s, key) && x in s && y in s && key(x) == key(y)
    ensures x == y
  {
    var i :| 0 <= i < |s| && s[i] == x;
    var j :| 0 <= j < |s| && s[j] == y;
    assert i == j;
  }

  /** A table that grows keeps every row it had. */
  lemma ExtendsKeeps<T>(a: seq<T>, b: seq<T>)
    requires Extends(a, b)
    ensures forall x :: x in a ==> x in b
  {
    forall x | x in a ensures x in b {
      var i :| 0 <= i < |a| && a[i] == x;
      assert b[i] == x;
    }
  }

  /** Growth composes. */
  lemma GrowsTrans<T>(a: seq<T>, b: seq<T>, c: seq<T>, m: nat, n: nat)
    requires Grows(a, b, m) && Grows(b, c, n)
    ensures Grows(a, c, m + n)
  {
    assert c[..|a|] == c[..|b|][..|a|];
  }

  /** Appending only is transitive. */
  lemma ExtendsTrans<T>(a: seq<T>, b: seq<T>, c: seq<T>)
    requires Extends(a, b) && Extends(b, c)
    ensures Extends(a, c)
  {
    assert c[..|a|] == c[..|b|][..|a|];
  }

  /**
   * The two Location get_or_create calls of one row (employee residence,
   * then company location): a code named twice is created at most once.
   */
  method ImportLocations(db: Database, row: CsvRow) returns (residenceId: Id, companyId: Id, created: nat)
    requires db.Valid()
    modifies db`locations, db`nextId
    ensures db.Valid()
    ensures Grows(old(db.locations), db.locations, created)
    ensures KeySet(db.locations, CountryCode)
         == KeySet(old(db.locations), CountryCode) + {row.employeeResidence, row.companyLocation}
    ensures Row(residenceId, Location(row.employeeResidence)) in db.locations
    ensures Row(companyId, Location(row.companyLocation)) in db.locations
  {
    ghost var locations0 := db.locations;
    var residenceCreated, companyCreated;
    residenceId, residenceCreated := ImportLocation(db, row.employeeResidence);
    ghost var locations1 := db.locations;
    companyId, companyCreated := ImportLocation(db, row.companyLocation);
    created := (if residenceCreated then 1 else 0) + (if companyCreated then 1 else 0);
    GrowsTrans(locations0, locations1, db.locations, if residenceCreated then 1 else 0, if companyCreated then 1 else 0);
    ExtendsKeeps(locations1, db.locations);
  }

  /** One Location get_or_create: the code's row afterwards, appended only when the code was new. */
  method ImportLocation(db: Database, code: string) returns (id: Id, created: bool)
    requires db.Valid()
    modifies db`locations, db`nextId
    ensures db.Valid()
    ensures Grows(old(db.locations), db.locations, if created then 1 else 0)
    ensures KeySet(db.locations, CountryCode) == KeySet(old(db.locations), CountryCode) + {code}
    ensures Row(id, Location(code)) in db.locations
  {
    ghost var locations0 := db.locations;
    id, created := db.GetOrCreateLocation(code);
    if created {
      AppendKeySet(locations0, Row(id, Location(code)), CountryCode);
    } else {
      MemberKey(db.locations, Row(id, Location(code)), CountryCode);
    }
  }

  /**
   * The two Contract get_or_create calls of one row: an experience level
   * met for the first time gets "Experience Level: <code>", an employment
   * type "Employment Type: <code>"; existing contracts are left as they are.
   */
  method ImportContracts(db: Database, row: CsvRow)
    requires db.Valid()
    modifies db`contracts
    ensures db.Valid()
    ensures Extends(old(db.contracts), db.contracts)
    ensures KeySet(db.contracts, ContractCode)
         == KeySet(old(db.contracts), ContractCode) + {row.experienceLevel, row.employmentType}
    ensures forall c :: c in db.contracts ==> c in old(db.contracts) || DefaultContract(c, [row])
    ensures row.experienceLevel !in KeySet(old(db.contracts), ContractCode) ==>
      Contract(row.experienceLevel, ExperienceDescription(row.experienceLevel)) in db.contracts
    ensures row.employmentType !in KeySet(old(db.contracts), ContractCode) && row.employmentType != row.experienceLevel ==>
      Contract(row.employmentType, EmploymentDescription(row.employmentType)) in db.contracts
  {
    ghost var contracts1 := db.contracts;
    var experience, experienceCreated := db.GetOrCreateContract(row.experienceLevel, ExperienceDescription(row.experienceLevel));
    ghost var contracts2 := db.contracts;
    var employment, employmentCreated := db.GetOrCreateContract(row.employmentType, EmploymentDescription(row.employmentType));
    if experienceCreated {
      AppendKeySet(contracts1, experience, ContractCode);
    } else {
      MemberKey(contracts2, experience, ContractCode);
    }
    if employmentCreated {
      AppendKeySet(contracts2, employment, ContractCode);
    } else {
      MemberKey(db.contracts, employment, ContractCode);
    }
    GrowsTrans(contracts1, contracts2, db.contracts, if experienceCreated then 1 else 0, if employmentCreated then 1 else 0);
    assert row in [row];
  }

  /**
   * With the title and company location resolved to the rows named by the
   * CSV row, "a stored record has the row's triple" is exactly "the triple's
   * ids are taken", since titles and country codes are unique.
   */
  lemma ImportedIffClash(jobs: seq<Row<JobRecord>>, row: CsvRow, titles: seq<Row<JobTitle>>,
                         locations: seq<Row<Location>>, title: Id, company: Id)
    requires DistinctBy(titles, TitleName) && DistinctBy(locations, CountryCode)
    requires Row(title, JobTitle(row.jobTitle)) in titles
    requires Row(company, Location(row.companyLocation)) in locations
    ensures AlreadyImported(jobs, row, titles, locations) <==> (title, row.workYear, company) in KeySet(jobs, RowKey)
  {
    if AlreadyImported(jobs, row, titles, locations) {
      var j :| j in jobs && Names(j.val, row, titles, locations);
      SameKeySameMember(titles, Row(j.val.jobTitle, JobTitle(row.jobTitle)), Row(title, JobTitle(row.jobTitle)), TitleName);
      SameKeySameMember(locations, Row(j.val.companyLocation, Location(row.companyLocation)),
                        Row(company, Location(row.companyLocation)), CountryCode);
      MemberKey(jobs, j, RowKey);
    }
    if (title, row.workYear, company) in KeySet(jobs, RowKey) {
      var i :| 0 <= i < |jobs| && RowKey(jobs[i]) == (title, row.workYear, company);
      assert Names(jobs[i].val, row, titles, locations);
      assert jobs[i] in jobs;
    }
  }

  /** JobTitle get_or_create for one row. */
  method ImportTitle(db: Database, row: CsvRow) returns (titleId: Id, created: bool)
    requires db.Valid()
    modifies db`jobTitles, db`nextId
    ensures db.Valid()
    ensures created <==> row.jobTitle !in KeySet(old(db.jobTitles), TitleName)
    ensures Grows(old(db.jobTitles), db.jobTitles, if created then 1 else 0)
    ensures KeySet(db.jobTitles, TitleName) == KeySet(old(db.jobTitles), TitleName) + {row.jobTitle}
    ensures Row(titleId, JobTitle(row.jobTitle)) in db.jobTitles
  {
    ghost var titles0 := db.jobTitles;
    titleId, created := db.GetOrCreateJobTitle(row.jobTitle);
    if created {
      AppendKeySet(titles0, Row(titleId, JobTitle(row.jobTitle)), TitleName);
    } else {
      MemberKey(db.jobTitles, Row(titleId, JobTitle(row.jobTitle)), TitleName);
    }
  }

  /**
   * The JobRecord create of one row, once its title, locations and
   * contracts exist: it succeeds exactly when no stored record has the row's
   * triple, and otherwise leaves the table as it was (the skipped duplicate).
   */
  method ImportRecord(db: Database, row: CsvRow, titleId: Id, residenceId: Id, companyId: Id) returns (created: bool)
    requires db.Valid()
    requires Row(titleId, JobTitle(row.jobTitle)) in db.jobTitles
    requires Row(residenceId, Location(row.employeeResidence)) in db.locations
    requires Row(companyId, Location(row.companyLocation)) in db.locations
    requires row.experienceLevel in KeySet(db.contracts, ContractCode)
    requires row.employmentType in KeySet(db.contracts, ContractCode)
    modifies db`jobs, db`nextId
    ensures db.Valid()
    ensures created <==> !AlreadyImported(old(db.jobs), row, db.jobTitles, db.locations)
    ensures Grows(old(db.jobs), db.jobs, if created then 1 else 0)
    ensures created ==> Represents(db.jobs[|old(db.jobs)|].val, row, db.jobTitles, db.locations)
    ensures AlreadyImported(db.jobs, row, db.jobTitles, db.locations)
  {
    ghost var jobs0 := db.jobs;
    var record := RecordOf(row, titleId, residenceId, companyId);
    MemberKey(db.jobTitles, Row(titleId, JobTitle(row.jobTitle)), RowId);
    MemberKey(db.locations, Row(residenceId, Location(row.employeeResidence)), RowId);
    MemberKey(db.locations, Row(companyId, Location(row.companyLocation)), RowId);
    assert db.Resolves(record);
    ImportedIffClash(jobs0, row, db.jobTitles, db.locations, titleId, companyId);
    var res := db.CreateJobRecord(record);
    created := res.Ok?;
    if created {
      assert db.jobs[|jobs0|] == Row(res.value, record);
      assert db.jobs[|jobs0|] in db.jobs;
      assert Names(record, row, db.jobTitles, db.locations);
    }
  }

  /**
   * One pass of the import loop over a CSV row: the title, both locations
   * and both contracts are get_or_created, and the JobRecord is created
   * unless a stored record already has its (title, year, company location)
   * triple, which the import counts as a skipped duplicate.
   */
  method ImportRow(db: Database, row: CsvRow) returns (titleCreated: bool, locationsCreated: nat, recordCreated: bool)
    requires db.Valid()
    modifies db`jobTitles, db`locations, db`contracts, db`jobs, db`nextId
    ensures db.Valid()
    ensures titleCreated <==> row.jobTitle !in KeySet(old(db.jobTitles), TitleName)
    ensures Grows(old(db.jobTitles), db.jobTitles, if titleCreated then 1 else 0)
    ensures KeySet(db.jobTitles, TitleName) == KeySet(old(db.jobTitles), TitleName) + {row.jobTitle}
    ensures Grows(old(db.locations), db.locations, locationsCreated)
    ensures KeySet(db.locations, CountryCode)
         == KeySet(old(db.locations), CountryCode) + {row.employeeResidence, row.companyLocation}
    ensures Extends(old(db.contracts), db.contracts)
    ensures KeySet(db.contracts, ContractCode)
         == KeySet(old(db.contracts), ContractCode) + {row.experienceLevel, row.employmentType}
    ensures forall c :: c in db.contracts ==> c in old(db.contracts) || DefaultContract(c, [row])
    ensures row.experienceLevel !in KeySet(old(db.contracts), ContractCode) ==>
      Contract(row.experienceLevel, ExperienceDescription(row.experienceLevel)) in db.contracts
    ensures row.employmentType !in KeySet(old(db.contracts), ContractCode) && row.employmentType != row.experienceLevel ==>
      Contract(row.employmentType, EmploymentDescription(row.employmentType)) in db.contracts
    ensures recordCreated <==> !AlreadyImported(old(db.jobs), row, db.jobTitles, db.locations)
    ensures Grows(old(db.jobs), db.jobs, if recordCreated then 1 else 0)
    ensures recordCreated ==> Represents(db.jobs[|old(db.jobs)|].val, row, db.jobTitles, db.locations)
    ensures AlreadyImported(db.jobs, row, db.jobTitles, db.locations)
  {
    var titleId, residenceId, companyId;
    titleId, titleCreated, residenceId, companyId, locationsCreated := ImportLookups(db, row);
    recordCreated := ImportRecord(db, row, titleId, residenceId, companyId);
  }

  /** The get_or_create calls of one row for its title, its two locations and its two contracts. */
  method ImportLookups(db: Database, row: CsvRow)
    returns (titleId: Id, titleCreated: bool, residenceId: Id, companyId: Id, locationsCreated: nat)
    requires db.Valid()
    modifies db`jobTitles, db`locations, db`contracts, db`nextId
    ensures db.Valid()
    ensures titleCreated <==> row.jobTitle !in KeySet(old(db.jobTitles), TitleName)
    ensures Grows(old(db.jobTitles), db.jobTitles, if titleCreated then 1 else 0)
    ensures KeySet(db.jobTitles, TitleName) == KeySet(old(db.jobTitles), TitleName) + {row.jobTitle}
    ensures Grows(old(db.locations), db.locations, locationsCreated)
    ensures KeySet(db.locations, CountryCode)
         == KeySet(old(db.locations), CountryCode) + {row.employeeResidence, row.companyLocation}
    ensures Extends(old(db.contracts), db.contracts)
    ensures KeySet(db.contracts, ContractCode)
         == KeySet(old(db.contracts), ContractCode) + {row.experienceLevel, row.employmentType}
    ensures forall c :: c in db.contracts ==> c in old(db.contracts) || DefaultContract(c, [row])
    ensures row.experienceLevel !in KeySet(old(db.contracts), ContractCode) ==>
      Contract(row.experienceLevel, ExperienceDescription(row.experienceLevel)) in db.contracts
    ensures row.employmentType !in KeySet(old(db.contracts), ContractCode) && row.employmentType != row.experienceLevel ==>
      Contract(row.employmentType, EmploymentDescription(row.employmentType)) in db.contracts
    ensures Row(titleId, JobTitle(row.jobTitle)) in db.jobTitles
    ensures Row(residenceId, Location(row.employeeResidence)) in db.locations
    ensures Row(companyId, Location(row.companyLocation)) in db.locations
  {
    titleId, titleCreated := ImportTitle(db, row);
    residenceId, companyId, locationsCreated := ImportLocations(db, row);
    ImportContracts(db, row);
  }

  /**
   * One iteration of the import loop, on the line `rows[i]`: what the lines
   * before it established about the tables still holds with that line added.
   */
  method ImportStep(db: Database, rows: seq<CsvRow>, i: nat, ghost titles0: seq<Row<JobTitle>>,
                    ghost locations0: seq<Row<Location>>, ghost contracts0: seq<Contract>,
                    ghost jobs0: seq<Row<JobRecord>>, titlesCreated: nat, locationsCreated: nat, recordsCreated: nat)
    returns (titleCreated: bool, newLocations: nat, recordCreated: bool)
    requires i < |rows|
    requires db.Valid()
    requires Grows(titles0, db.jobTitles, titlesCreated)
    requires Grows(locations0, db.locations, locationsCreated)
    requires Grows(jobs0, db.jobs, recordsCreated)
    requires Extends(contracts0, db.contracts)
    requires KeySet(db.jobTitles, TitleName) == KeySet(titles0, TitleName) + KeySet(rows[..i], CsvTitle)
    requires KeySet(db.locations, CountryCode) == KeySet(locations0, CountryCode) + LocationCodes(rows[..i])
    requires KeySet(db.contracts, ContractCode) == KeySet(contracts0, ContractCode) + ContractCodes(rows[..i])
    requires forall c :: c in db.contracts ==> c in contracts0 || DefaultContract(c, rows[..i])
    requires DescribedFirst(db.contracts, KeySet(contracts0, ContractCode), rows[..i])
    requires forall k :: 0 <= k < i ==> AlreadyImported(db.jobs, rows[k], db.jobTitles, db.locations)
    requires forall j :: j in db.jobs[|jobs0|..] ==>
      exists r :: r in rows[..i] && Represents(j.val, r, db.jobTitles, db.locations)
    modifies db`jobTitles, db`locations, db`contracts, db`jobs, db`nextId
    ensures db.Valid()
    ensures Grows(titles0, db.jobTitles, titlesCreated + if titleCreated then 1 else 0)
    ensures Grows(locations0, db.locations, locationsCreated + newLocations)
    ensures Grows(jobs0, db.jobs, recordsCreated + if recordCreated then 1 else 0)
    ensures Extends(contracts0, db.contracts)
    ensures KeySet(db.jobTitles, TitleName) == KeySet(titles0, TitleName) + KeySet(rows[..i + 1], CsvTitle)
    ensures KeySet(db.locations, CountryCode) == KeySet(locations0, CountryCode) + LocationCodes(rows[..i + 1])
    ensures KeySet(db.contracts, ContractCode) == KeySet(contracts0, ContractCode) + ContractCodes(rows[..i + 1])
    ensures forall c :: c in db.contracts ==> c in contracts0 || DefaultContract(c, rows[..i + 1])
    ensures DescribedFirst(db.contracts, KeySet(contracts0, ContractCode), rows[..i + 1])
    ensures forall k :: 0 <= k < i + 1 ==> AlreadyImported(db.jobs, rows[k], db.jobTitles, db.locations)
    ensures forall j :: j in db.jobs[|jobs0|..] ==>
      exists r :: r in rows[..i + 1] && Represents(j.val, r, db.jobTitles, db.locations)
  {
    ghost var titles1, locations1, contracts1, jobs1 := db.jobTitles, db.locations, db.contracts, db.jobs;
    titleCreated, newLocations, recordCreated := ImportRow(db, rows[i]);
    ColumnsSnoc(rows, i);
    StepKeys(KeySet(titles0, TitleName), KeySet(titles1, TitleName), KeySet(db.jobTitles, TitleName),
             KeySet(rows[..i], CsvTitle), KeySet(rows[..i + 1], CsvTitle), {rows[i].jobTitle});
    StepKeys(KeySet(locations0, CountryCode), KeySet(locations1, CountryCode), KeySet(db.locations, CountryCode),
             LocationCodes(rows[..i]), LocationCodes(rows[..i + 1]),
             {rows[i].employeeResidence, rows[i].companyLocation});
    StepKeys(KeySet(contracts0, ContractCode), KeySet(contracts1, ContractCode), KeySet(db.contracts, ContractCode),
             ContractCodes(rows[..i]), ContractCodes(rows[..i + 1]),
             {rows[i].experienceLevel, rows[i].employmentType});
    StepImported(rows, i, titles1, locations1, jobs1, db.jobTitles, db.locations, db.jobs);
    StepRepresents(rows, i, titles1, locations1, jobs0, jobs1, db.jobTitles, db.locations, db.jobs,
                   if recordCreated then 1 else 0);
    StepContracts(rows, i, contracts0, contracts1, db.contracts);
    ExtendsKeeps(contracts1, db.contracts);
    StepDescriptions(rows, i, KeySet(contracts0, ContractCode), contracts1, db.contracts);
    GrowsTrans(titles0, titles1, db.jobTitles, titlesCreated, if titleCreated then 1 else 0);
    GrowsTrans(locations0, locations1, db.locations, locationsCreated, newLocations);
    GrowsTrans(jobs0, jobs1, db.jobs, recordsCreated, if recordCreated then 1 else 0);
    ExtendsTrans(contracts0, contracts1, db.contracts);
  }

  /**
   * import_jobs_from_csv: imports every row in order. Each row ends up with
   * a stored record carrying its triple; every new record is built from some
   * row; the catalog tables only grow, by exactly the names and codes the rows
   * mention, and the counters report the growth.
   */
  method ImportJobsFromCsv(db: Database, rows: seq<CsvRow>) returns (summary: ImportSummary)
    requires db.Valid()
    modifies db`jobTitles, db`locations, db`contracts, db`jobs, db`nextId
    ensures db.Valid()
    ensures summary.jobRecordsCreated + summary.duplicatesSkipped == |rows|
    ensures Grows(old(db.jobTitles), db.jobTitles, summary.jobTitlesCreated)
    ensures Grows(old(db.locations), db.locations, summary.locationsCreated)
    ensures Grows(old(db.jobs), db.jobs, summary.jobRecordsCreated)
    ensures Extends(old(db.contracts), db.contracts)
    ensures KeySet(db.jobTitles, TitleName) == KeySet(old(db.jobTitles), TitleName) + KeySet(rows, CsvTitle)
    ensures KeySet(db.locations, CountryCode) == KeySet(old(db.locations), CountryCode) + LocationCodes(rows)
    ensures KeySet(db.contracts, ContractCode) == KeySet(old(db.contracts), ContractCode) + ContractCodes(rows)
    ensures summary.jobTitlesCreated == |KeySet(rows, CsvTitle) - KeySet(old(db.jobTitles), TitleName)|
    ensures summary.locationsCreated == |LocationCodes(rows) - KeySet(old(db.locations), CountryCode)|
    ensures forall c :: c in db.contracts ==> c in old(db.contracts) || DefaultContract(c, rows)
    ensures DescribedFirst(db.contracts, KeySet(old(db.contracts), ContractCode), rows)
    ensures forall k :: 0 <= k < |rows| ==> AlreadyImported(db.jobs, rows[k], db.jobTitles, db.locations)
    ensures forall j :: j in db.jobs[|old(db.jobs)|..] ==>
      exists r :: r in rows && Represents(j.val, r, db.jobTitles, db.locations)
  {
    ghost var titles0, locations0, contracts0, jobs0 := db.jobTitles, db.locations, db.contracts, db.jobs;
    var titlesCreated, locationsCreated, recordsCreated, skipped := 0, 0, 0, 0;
    var i := 0;
    while i < |rows|
      invariant 0 <= i <= |rows|
      invariant db.Valid()
      invariant recordsCreated + skipped == i
      invariant Grows(titles0, db.jobTitles, titlesCreated)
      invariant Grows(locations0, db.locations, locationsCreated)
      invariant Grows(jobs0, db.jobs, recordsCreated)
      invariant Extends(contracts0, db.contracts)
      invariant KeySet(db.jobTitles, TitleName) == KeySet(titles0, TitleName) + KeySet(rows[..i], CsvTitle)
      invariant KeySet(db.locations, CountryCode) == KeySet(locations0, CountryCode) + LocationCodes(rows[..i])
      invariant KeySet(db.contracts, ContractCode) == KeySet(contracts0, ContractCode) + ContractCodes(rows[..i])
      invariant forall c :: c in db.contracts ==> c in contracts0 || DefaultContract(c, rows[..i])
      invariant DescribedFirst(db.contracts, KeySet(contracts0, ContractCode), rows[..i])
      invariant forall k :: 0 <= k < i ==> AlreadyImported(db.jobs, rows[k], db.jobTitles, db.locations)
      invariant forall j :: j in db.jobs[|jobs0|..] ==>
        exists r :: r in rows[..i] && Represents(j.val, r, db.jobTitles, db.locations)
    {
      var titleCreated, newLocations, recordCreated :=
        ImportStep(db, rows, i, titles0, locations0, contracts0, jobs0, titlesCreated, locationsCreated, recordsCreated);
      if titleCreated { titlesCreated := titlesCreated + 1; }
      locationsCreated := locationsCreated + newLocations;
      if recordCreated { recordsCreated := recordsCreated + 1; } else { skipped := skipped + 1; }
      i := i + 1;
    }
    assert rows[..i] == rows;
    CreatedCount(titles0, db.jobTitles, TitleName, titlesCreated, KeySet(rows, CsvTitle));
    CreatedCount(locations0, db.locations, CountryCode, locationsCreated, LocationCodes(rows));
    summary := ImportSummary(titlesCreated, locationsCreated, recordsCreated, skipped);
  }

  /** Under a UNIQUE constraint a table has as many keys as rows. */
  lemma {:induction false} DistinctKeyCount<T, K>(s: seq<T>, key: T -> K)
    requires DistinctBy(s, key)
    ensures |KeySet(s, key)| == |s|
  {
    if s != [] {
      var init := s[..|s| - 1];
      assert s == init + [s[|s| - 1]];
      assert DistinctBy(init, key);
      DistinctKeyCount(init, key);
      AppendKeySet(init, s[|s| - 1], key);
      assert forall i :: 0 <= i < |init| ==> key(init[i]) != key(s[|s| - 1]) by {
        forall i | 0 <= i < |init| ensures key(init[i]) != key(s[|s| - 1]) {
          assert init[i] == s[i];
        }
      }
    }
  }

  /**
   * The import's accounting: a UNIQUE table that grew by `n` rows and by
   * the keys `added` grew by exactly the keys of `added` it did not have.
   */
  lemma CreatedCount<T, K>(a: seq<T>, b: seq<T>, key: T -> K, n: nat, added: set<K>)
    requires DistinctBy(a, key) && DistinctBy(b, key)
    requires Grows(a, b, n)
    requires KeySet(b, key) == KeySet(a, key) + added
    ensures n == |added - KeySet(a, key)|
  {
    DistinctKeyCount(a, key);
    DistinctKeyCount(b, key);
    var newKeys := added - KeySet(a, key);
    assert KeySet(b, key) == KeySet(a, key) + newKeys;
    assert KeySet(a, key) * newKeys == {};
  }

  /** The names and codes read grow by the current row's. */
  lemma ColumnsSnoc(rows: seq<CsvRow>, i: nat)
    requires i < |rows|
    ensures KeySet(rows[..i + 1], CsvTitle) == KeySet(rows[..i], CsvTitle) + {rows[i].jobTitle}
    ensures LocationCodes(rows[..i + 1]) == LocationCodes(rows[..i]) + {rows[i].employeeResidence, rows[i].companyLocation}
    ensures ContractCodes(rows[..i + 1]) == ContractCodes(rows[..i]) + {rows[i].experienceLevel, rows[i].employmentType}
  {
    assert rows[..i + 1] == rows[..i] + [rows[i]];
    AppendKeySet(rows[..i], rows[i], CsvTitle);
    AppendKeySet(rows[..i], rows[i], CsvResidence);
    AppendKeySet(rows[..i], rows[i], CsvCompany);
    AppendKeySet(rows[..i], rows[i], CsvExperience);
    AppendKeySet(rows[..i], rows[i], CsvEmployment);
  }

  /**
   * Rows imported before the current one keep a record with their triple
   * after it: the tables only grow. The current row adds its own.
   */
  lemma StepImported(rows: seq<CsvRow>, i: nat,
                     titles: seq<Row<JobTitle>>, locations: seq<Row<Location>>, jobs: seq<Row<JobRecord>>,
                     titles': seq<Row<JobTitle>>, locations': seq<Row<Location>>, jobs': seq<Row<JobRecord>>)
    requires i < |rows|
    requires Extends(titles, titles') && Extends(locations, locations') && Extends(jobs, jobs')
    requires forall k :: 0 <= k < i ==> AlreadyImported(jobs, rows[k], titles, locations)
    requires AlreadyImported(jobs', rows[i], titles', locations')
    ensures forall k :: 0 <= k < i + 1 ==> AlreadyImported(jobs', rows[k], titles', locations')
  {
    ExtendsKeeps(titles, titles');
    ExtendsKeeps(locations, locations');
    ExtendsKeeps(jobs, jobs');
    forall k | 0 <= k < i ensures AlreadyImported(jobs', rows[k], titles', locations') {
      var j :| j in jobs && Names(j.val, rows[k], titles, locations);
      assert Names(j.val, rows[k], titles', locations');
    }
  }

  /**
   * Every record added since the start of the import is built from one of
   * the rows read so far, and stays so as the tables grow.
   */
  lemma StepRepresents(rows: seq<CsvRow>, i: nat,
                       titles: seq<Row<JobTitle>>, locations: seq<Row<Location>>,
                       jobs0: seq<Row<JobRecord>>, jobs: seq<Row<JobRecord>>,
                       titles': seq<Row<JobTitle>>, locations': seq<Row<Location>>,
                       jobs': seq<Row<JobRecord>>, n: nat)
    requires i < |rows| && n <= 1
    requires Extends(jobs0, jobs) && Grows(jobs, jobs', n)
    requires Extends(titles, titles') && Extends(locations, locations')
    requires forall j :: j in jobs[|jobs0|..] ==> exists r :: r in rows[..i] && Represents(j.val, r, titles, locations)
    requires n == 1 ==> Represents(jobs'[|jobs|].val, rows[i], titles', locations')
    ensures forall j :: j in jobs'[|jobs0|..] ==> exists r :: r in rows[..i + 1] && Represents(j.val, r, titles', locations')
  {
    ExtendsKeeps(titles, titles');
    ExtendsKeeps(locations, locations');
    assert rows[..i + 1] == rows[..i] + [rows[i]];
    forall j | j in jobs'[|jobs0|..] ensures exists r :: r in rows[..i + 1] && Represents(j.val, r, titles', locations') {
      var x :| 0 <= x < |jobs'[|jobs0|..]| && jobs'[|jobs0|..][x] == j;
      assert j == jobs'[|jobs0| + x];
      if |jobs0| + x < |jobs| {
        assert j == jobs[|jobs0|..][x];
        var r :| r in rows[..i] && Represents(j.val, r, titles, locations);
        assert r in rows[..i + 1];
        assert Represents(j.val, r, titles', locations');
      } else {
        assert j == jobs'[|jobs|];
        assert rows[i] in rows[..i + 1];
      }
    }
  }

  /** The codes the rows name: the first row's two codes and those of the rest. */
  lemma ContractCodesCons(rows: seq<CsvRow>)
    requires rows != []
    ensures ContractCodes(rows) == {rows[0].experienceLevel, rows[0].employmentType} + ContractCodes(rows[1..])
  {
    ConsKeySet(rows, CsvExperience);
    ConsKeySet(rows, CsvEmployment);
  }

  /** The keys of a non-empty sequence: its head's and its tail's. */
  lemma ConsKeySet<T, K>(s: seq<T>, key: T -> K)
    requires s != []
    ensures KeySet(s, key) == {key(s[0])} + KeySet(s[1..], key)
  {
    forall k | k in KeySet(s, key) ensures k in {key(s[0])} + KeySet(s[1..], key) {
      var i :| 0 <= i < |s| && key(s[i]) == k;
      if i > 0 {
        assert key(s[1..][i - 1]) == k;
      }
    }
    forall k | k in KeySet(s[1..], key) ensures k in KeySet(s, key) {
      var i :| 0 <= i < |s[1..]| && key(s[1..][i]) == k;
      assert key(s[i + 1]) == k;
    }
  }

  /**
   * A later row never changes the first description of a code already
   * named; a code named for the first time takes that row's description.
   */
  lemma {:induction false} FirstDescriptionSnoc(code: string, pre: seq<CsvRow>, r: CsvRow)
    ensures code in ContractCodes(pre) ==> FirstDescription(code, pre + [r]) == FirstDescription(code, pre)
    ensures code !in ContractCodes(pre) ==> FirstDescription(code, pre + [r]) == FirstDescription(code, [r])
  {
    if pre != [] {
      assert (pre + [r])[1..] == pre[1..] + [r];
      FirstDescriptionSnoc(code, pre[1..], r);
      ContractCodesCons(pre);
    }
  }

  /**
   * One import step keeps every new contract code stored with its first
   * description: the codes met before keep theirs, and the row's own codes
   * get the experience default, or the employment default when only the
   * employment column names them.
   */
  lemma StepDescriptions(rows: seq<CsvRow>, i: nat, oldCodes: set<string>, contracts: seq<Contract>,
                         contracts': seq<Contract>)
    requires i < |rows|
    requires DescribedFirst(contracts, oldCodes, rows[..i])
    requires KeySet(contracts, ContractCode) == oldCodes + ContractCodes(rows[..i])
    requires forall c :: c in contracts ==> c in contracts'
    requires rows[i].experienceLevel !in KeySet(contracts, ContractCode) ==>
      Contract(rows[i].experienceLevel, ExperienceDescription(rows[i].experienceLevel)) in contracts'
    requires rows[i].employmentType !in KeySet(contracts, ContractCode) && rows[i].employmentType != rows[i].experienceLevel ==>
      Contract(rows[i].employmentType, EmploymentDescription(rows[i].employmentType)) in contracts'
    ensures DescribedFirst(contracts', oldCodes, rows[..i + 1])
  {
    ColumnsSnoc(rows, i);
    assert rows[..i + 1] == rows[..i] + [rows[i]];
    forall code | code in ContractCodes(rows[..i + 1]) && code !in oldCodes
      ensures Contract(code, FirstDescription(code, rows[..i + 1])) in contracts'
    {
      FirstDescriptionSnoc(code, rows[..i], rows[i]);
    }
  }

  /** Every contract added since the start was added for a row read so far. */
  lemma StepContracts(rows: seq<CsvRow>, i: nat, contracts0: seq<Contract>, contracts: seq<Contract>,
                      contracts': seq<Contract>)
    requires i < |rows|
    requires forall c :: c in contracts ==> c in contracts0 || DefaultContract(c, rows[..i])
    requires forall c :: c in contracts' ==> c in contracts || DefaultContract(c, [rows[i]])
    ensures forall c :: c in contracts' ==> c in contracts0 || DefaultContract(c, rows[..i + 1])
  {
    assert rows[..i + 1] == rows[..i] + [rows[i]];
    forall c | c in contracts' ensures c in contracts0 || DefaultContract(c, rows[..i + 1]) {
      if c in contracts {
        if c !in contracts0 {
          var r :| r in rows[..i] &&
            (c == Contract(r.experienceLevel, ExperienceDescription(r.experienceLevel))
             || c == Contract(r.employmentType, EmploymentDescription(r.employmentType)));
          assert r in rows[..i + 1];
        }
      } else {
        var r :| r in [rows[i]] &&
          (c == Contract(r.experienceLevel, ExperienceDescription(r.experienceLevel))
           || c == Contract(r.employmentType, EmploymentDescription(r.employmentType)));
        assert r in rows[..i + 1];
      }
    }
  }

  /** Set algebra of one step: the tables' keys and the columns read so far grow by the same keys. */
  lemma StepKeys(start: set<string>, before: set<string>, after: set<string>,
                 seen: set<string>, seen': set<string>, added: set<string>)
    requires before == start + seen && after == before + added && seen' == seen + added
    ensures after == start + seen'
  {
  }
}
