/**
 * The four report queries of asite/jobs/advanced_queries.py, as functions of
 * the JobRecord table joined with the catalog tables they read: mean salary
 * per job title (top 5), mean salary per experience level, job count per
 * company location, and the share of fully remote jobs. Salaries are integer
 * cents, so Round(Avg(...), 2) is the mean in cents rounded to a whole cent.
 */
module AdvancedQueries {
  import opened Tables
  import opened JobsModels
  import opened Text
  import opened Sorting
  import opened Store

  /** The columns of one JobRecord the queries read, with its foreign keys followed. */
  datatype JobView = JobView(
    titleName: string,
    experienceCode: string,
    experienceDescription: string,
    companyLocationCode: string,
    salaryInUsd: int,
    remoteRatio: int)

  function TitleNameOf(titles: seq<Row<JobTitle>>, id: Id): string {
    match Get(titles, id)
    case Some(t) => t.name
    case None => ""
  }

  function CountryCodeOf(locations: seq<Row<Location>>, id: Id): string {
    match Get(locations, id)
    case Some(l) => l.countryCode
    case None => ""
  }

  function DescriptionOf(contracts: seq<Contract>, code: string): string {
    if contracts == [] then ""
    else if contracts[0].typeCode == code then contracts[0].description
    else DescriptionOf(contracts[1..], code)
  }

  /**
   * The joined row of one JobRecord: job_title__name, experience_level's
   * type_code and description, company_location__country_code.
   */
  function ViewOf(r: JobRecord, titles: seq<Row<JobTitle>>, contracts: seq<Contract>,
                  locations: seq<Row<Location>>): JobView {
    JobView(TitleNameOf(titles, r.jobTitle), r.experienceLevel, DescriptionOf(contracts, r.experienceLevel),
            CountryCodeOf(locations, r.companyLocation), r.salaryInUsd, r.remoteRatio)
  }

  /** One joined row per JobRecord, in table order. */
  function JobViews(jobs: seq<Row<JobRecord>>, titles: seq<Row<JobTitle>>, contracts: seq<Contract>,
                    locations: seq<Row<Location>>): (vs: seq<JobView>)
    ensures |vs| == |jobs|
    ensures forall i :: 0 <= i < |jobs| ==> vs[i].salaryInUsd == jobs[i].val.salaryInUsd
    ensures forall i :: 0 <= i < |jobs| ==> vs[i].remoteRatio == jobs[i].val.remoteRatio
    ensures forall i :: 0 <= i < |jobs| ==> vs[i].experienceCode == jobs[i].val.experienceLevel
    ensures forall i :: 0 <= i < |jobs| ==> vs[i] == ViewOf(jobs[i].val, titles, contracts, locations)
  {
    seq(|jobs|, i requires 0 <= i < |jobs| => ViewOf(jobs[i].val, titles, contracts, locations))
  }

  /** With unique ids, the title name of a stored title row, and "" for an id with no row. */
  lemma TitleNameJoin(titles: seq<Row<JobTitle>>, id: Id)
    requires DistinctBy(titles, RowId)
    ensures forall t :: Row(id, t) in titles ==> TitleNameOf(titles, id) == t.name
    ensures id !in Ids(titles) ==> TitleNameOf(titles, id) == ""
  {
    forall t | Row(id, t) in titles ensures TitleNameOf(titles, id) == t.name {
      GetFinds(titles, id, t);
    }
  }

  /** With unique ids, the country code of a stored location row, and "" for an id with no row. */
  lemma CountryCodeJoin(locations: seq<Row<Location>>, id: Id)
    requires DistinctBy(locations, RowId)
    ensures forall l :: Row(id, l) in locations ==> CountryCodeOf(locations, id) == l.countryCode
    ensures id !in Ids(locations) ==> CountryCodeOf(locations, id) == ""
  {
    forall l | Row(id, l) in locations ensures CountryCodeOf(locations, id) == l.countryCode {
      GetFinds(locations, id, l);
    }
  }

  /** With unique type codes, the description of the stored contract with that code. */
  lemma {:induction false} DescriptionJoin(contracts: seq<Contract>, c: Contract)
    requires DistinctBy(contracts, ContractCode) && c in contracts
    ensures DescriptionOf(contracts, c.typeCode) == c.description
  {
    if contracts[0] != c {
      var j :| 0 <= j < |contracts| && contracts[j] == c;
      assert ContractCode(contracts[0]) != ContractCode(contracts[j]);
      assert contracts[1..][j - 1] == c;
      DescriptionJoin(contracts[1..], c);
    }
  }

  /** A code no contract has gets the description "". */
  lemma {:induction false} DescriptionMissing(contracts: seq<Contract>, code: string)
    requires code !in KeySet(contracts, ContractCode)
    ensures DescriptionOf(contracts, code) == ""
  {
    if contracts != [] {
      assert ContractCode(contracts[0]) != code;
      forall k | 0 <= k < |contracts[1..]| ensures ContractCode(contracts[1..][k]) != code {
        assert contracts[1..][k] == contracts[k + 1];
      }
      DescriptionMissing(contracts[1..], code);
    }
  }

  /**
   * The join the queries read through: every view carries the name of its
   * record's job title, the description of its experience-level contract
   * and the country code of its company location, as stored in those tables
   * (and "" where the row is missing, which the foreign keys rule out).
   */
  lemma JobViewsJoin(jobs: seq<Row<JobRecord>>, titles: seq<Row<JobTitle>>, contracts: seq<Contract>,
                     locations: seq<Row<Location>>, i: nat)
    requires DistinctBy(titles, RowId) && DistinctBy(locations, RowId) && DistinctBy(contracts, ContractCode)
    requires i < |jobs|
    ensures var v := JobViews(jobs, titles, contracts, locations)[i];
      && (forall t :: Row(jobs[i].val.jobTitle, t) in titles ==> v.titleName == t.name)
      && (jobs[i].val.jobTitle !in Ids(titles) ==> v.titleName == "")
      && (forall c :: c in contracts && c.typeCode == jobs[i].val.experienceLevel ==> v.experienceDescription == c.description)
      && (jobs[i].val.experienceLevel !in KeySet(contracts, ContractCode) ==> v.experienceDescription == "")
      && (forall l :: Row(jobs[i].val.companyLocation, l) in locations ==> v.companyLocationCode == l.countryCode)
      && (jobs[i].val.companyLocation !in Ids(locations) ==> v.companyLocationCode == "")
  {
    var r := jobs[i].val;
    TitleNameJoin(titles, r.jobTitle);
    CountryCodeJoin(locations, r.companyLocation);
    forall c | c in contracts && c.typeCode == r.experienceLevel
      ensures DescriptionOf(contracts, r.experienceLevel) == c.description
    {
      DescriptionJoin(contracts, c);
    }
    if r.experienceLevel !in KeySet(contracts, ContractCode) {
      DescriptionMissing(contracts, r.experienceLevel);
    }
  }

  // ---------------------------------------------------------------- grouping

  /** The values of a grouping column, one per row. */
  function Keys<K>(vs: seq<JobView>, key: JobView -> K): (ks: seq<K>)
    ensures |ks| == |vs|
    ensures forall i :: 0 <= i < |vs| ==> ks[i] == key(vs[i])
  {
    seq(|vs|, i requires 0 <= i < |vs| => key(vs[i]))
  }

  /** The distinct values of `ks`: one group per value (values(...) before annotate). */
  function Distinct<K(==,!new)>(ks: seq<K>): (ds: seq<K>)
    ensures forall k :: k in ds <==> k in ks
    ensures Unique(ds)
    ensures |ds| <= |ks|
  {
    if ks == [] then []
    else
      var rest := Distinct(ks[1..]);
      assert ks == [ks[0]] + ks[1..];
      if ks[0] in rest then rest else [ks[0]] + rest
  }

  /** How many times `k` occurs in `ks` (Count('id') within a group). */
  function Count<K(==)>(ks: seq<K>, k: K): (n: nat)
    ensures n <= |ks|
    ensures n > 0 <==> k in ks
  {
    if ks == [] then 0
    else
      assert ks == [ks[0]] + ks[1..];
      (if ks[0] == k then 1 else 0) + Count(ks[1..], k)
  }

  function Sum(xs: seq<int>): int {
    if xs == [] then 0 else xs[0] + Sum(xs[1..])
  }

  /** (2t + n) div 2n rounds t / n to the nearest integer, halves up. */
  lemma RoundHalfUp(t: int, n: int)
    requires t >= 0 && n > 0
    ensures -n < 2 * ((2 * t + n) / (2 * n) * n - t) <= n
    ensures t == 0 ==> (2 * t + n) / (2 * n) == 0
  {
    var d := 2 * n;
    var q := (2 * t + n) / d;
    var m := (2 * t + n) % d;
    assert 2 * t + n == d * q + m && 0 <= m < d;
    assert d * q == 2 * (q * n);
  }

  /**
   * s / n rounded to the nearest integer, halves away from zero (the
   * database's ROUND): the result is within one half of s / n, and a result
   * exactly one half away lies on the side away from zero.
   */
  function RoundDiv(s: int, n: int): (r: int)
    requires n > 0
    ensures -n <= 2 * (r * n - s) <= n
    ensures 2 * (r * n - s) == n ==> s > 0
    ensures 2 * (r * n - s) == -n ==> s < 0
  {
    var t := if s >= 0 then s else -s;
    RoundHalfUp(t, n);
    var q := (2 * t + n) / (2 * n);
    assert s < 0 ==> (-q) * n == -(q * n);
    if s >= 0 then q else -q
  }

  /** Dividing by a positive count keeps the comparison with a bound. */
  lemma QuotientBetween(a: real, n: real, b: real)
    requires n > 0.0
    ensures a * n <= b * n ==> a <= b
    ensures b * n <= a * n ==> b <= a
  {
    if a > b {
      assert (a - b) * n > 0.0;
    }
    if b > a {
      assert (b - a) * n > 0.0;
    }
  }

  /** A quotient by a positive count of a value between lo * n and hi * n lies between lo and hi. */
  lemma DivBetween(x: real, n: real, lo: real, hi: real)
    requires n > 0.0 && lo * n <= x <= hi * n
    ensures lo <= x / n <= hi
  {
    var a := x / n;
    assert a * n == x;
    QuotientBetween(a, n, lo);
    QuotientBetween(a, n, hi);
  }

  /** One more summand in a product. */
  lemma MulSucc(m: nat, x: int)
    ensures (m + 1) * x == m * x + x
  {
  }

  /** A product of integers keeps its value as a real. */
  lemma {:induction false} RealOfProduct(m: nat, x: int)
    ensures (m * x) as real == x as real * m as real
  {
    if m > 0 {
      RealOfProduct(m - 1, x);
      MulSucc(m - 1, x);
      assert x as real * m as real == x as real * (m - 1) as real + x as real;
    }
  }

  /** part / whole as a percentage. */
  function Share(part: nat, whole: nat): real
    requires whole > 0
  {
    part as real / whole as real * 100.0
  }

  /** A share of at most the whole lies in [0, 100], and times the whole gives 100 * part. */
  lemma Percentage(part: nat, whole: nat)
    requires 0 < whole && part <= whole
    ensures 0.0 <= Share(part, whole) <= 100.0
    ensures Share(part, whole) * whole as real == 100.0 * part as real
  {
    var w := whole as real;
    var q := part as real / w;
    DivBetween(part as real, w, 0.0, 1.0);
    assert q * w == part as real;
    assert q * 100.0 * w == 100.0 * (q * w);
  }

  /** The salaries of the rows whose `key` column is `k`. */
  function GroupSalaries<K(==)>(vs: seq<JobView>, key: JobView -> K, k: K): (xs: seq<int>)
    ensures |xs| > 0 <==> k in Keys(vs, key)
  {
    var members := Filter(vs, (v: JobView) => key(v) == k);
    assert k in Keys(vs, key) ==> |members| > 0 by {
      if k in Keys(vs, key) {
        var i :| 0 <= i < |vs| && key(vs[i]) == k;
        assert vs[i] in members;
      }
    }
    assert |members| > 0 ==> k in Keys(vs, key) by {
      if |members| > 0 {
        assert members[0] in vs;
        var i :| 0 <= i < |vs| && vs[i] == members[0];
      }
    }
    seq(|members|, i requires 0 <= i < |members| => members[i].salaryInUsd)
  }

  /** One group of values(...).annotate(avg_salary=Round(Avg('salary_in_usd'), 2)). */
  datatype Group<K> = Group(key: K, avgSalary: int)

  function GroupKey<K>(g: Group<K>): K { g.key }

  /** The group of rows whose `key` is `k`, with their mean salary rounded to the cent. */
  function GroupOf<K(==)>(vs: seq<JobView>, key: JobView -> K, k: K): Group<K>
    requires k in Keys(vs, key)
  {
    var xs := GroupSalaries(vs, key, k);
    Group(k, RoundDiv(Sum(xs), |xs|))
  }

  /** `g` is the group of some value `key` takes in `vs`. */
  predicate IsGroupOf<K(==)>(vs: seq<JobView>, key: JobView -> K, g: Group<K>) {
    g.key in Keys(vs, key) && g == GroupOf(vs, key, g.key)
  }

  /**
   * One group per distinct value of `key`, each holding that value's rounded
   * mean salary; the groups have pairwise different keys.
   */
  function GroupMeans<K(==,!new)>(vs: seq<JobView>, key: JobView -> K): (gs: seq<Group<K>>)
    ensures |gs| == |Distinct(Keys(vs, key))|
    ensures forall g :: g in gs <==> IsGroupOf(vs, key, g)
    ensures DistinctBy(gs, GroupKey)
  {
    var ds := Distinct(Keys(vs, key));
    var gs := seq(|ds|, i requires 0 <= i < |ds| => GroupOf(vs, key, ds[i]));
    assert forall i :: 0 <= i < |ds| ==> gs[i].key == ds[i];
    assert forall g :: IsGroupOf(vs, key, g) ==> g in gs by {
      forall g | IsGroupOf(vs, key, g) ensures g in gs {
        var i :| 0 <= i < |ds| && ds[i] == g.key;
        assert gs[i] == g;
      }
    }
    gs
  }

  // ---------------------------------------------------------------- top job titles

  function TitleKey(v: JobView): string { v.titleName }

  /** order_by('-avg_salary'). */
  function BySalaryDesc(a: Group<string>, b: Group<string>): bool { a.avgSalary >= b.avgSalary }

  lemma BySalaryDescOrder()
    ensures TotalPreorder(BySalaryDesc)
  {
  }

  /**
   * The five job titles with the highest mean salary_in_usd: entries are
   * title groups with their rounded mean, in non-increasing order of that
   * mean, with no title twice; there are min(5, number of titles) of them.
   */
  function TopJobTitles(vs: seq<JobView>): (r: seq<Group<string>>)
    ensures |r| == if |Distinct(Keys(vs, TitleKey))| < 5 then |Distinct(Keys(vs, TitleKey))| else 5
    ensures forall g :: g in r ==> IsGroupOf(vs, TitleKey, g)
    ensures forall i, j :: 0 <= i < j < |r| ==> r[i].avgSalary >= r[j].avgSalary
    ensures DistinctBy(r, GroupKey)
  {
    var gs := GroupMeans(vs, TitleKey);
    BySalaryDescOrder();
    var sorted := SortBy(gs, BySalaryDesc);
    PermutationMembers(gs, sorted);
    PermutationDistinctBy(gs, sorted, GroupKey);
    var r := Take(sorted, 5);
    assert forall i :: 0 <= i < |r| ==> r[i] == sorted[i];
    r
  }

  /**
   * The titles kept are the top ones: a title left out has a mean no higher
   * than any title kept, and with five titles or fewer none is left out.
   */
  lemma TopJobTitlesAreTop(vs: seq<JobView>)
    ensures forall g, e :: IsGroupOf(vs, TitleKey, g) && g !in TopJobTitles(vs) && e in TopJobTitles(vs) ==>
      g.avgSalary <= e.avgSalary
    ensures |Distinct(Keys(vs, TitleKey))| <= 5 ==> forall g :: IsGroupOf(vs, TitleKey, g) ==> g in TopJobTitles(vs)
  {
    var gs := GroupMeans(vs, TitleKey);
    BySalaryDescOrder();
    var sorted := SortBy(gs, BySalaryDesc);
    PermutationMembers(gs, sorted);
    var r := TopJobTitles(vs);
    assert r == Take(sorted, 5);
    forall g, e | IsGroupOf(vs, TitleKey, g) && g !in r && e in r ensures g.avgSalary <= e.avgSalary {
      TakeTop(sorted, BySalaryDesc, 5, g, e);
    }
  }

  // ---------------------------------------------------------------- average by experience

  function ExperienceKey(v: JobView): (string, string) { (v.experienceCode, v.experienceDescription) }

  /** order_by('experience_level__type_code'). */
  function ByCode(a: Group<(string, string)>, b: Group<(string, string)>): bool { StrLe(a.key.0, b.key.0) }

  lemma ByCodeOrder()
    ensures TotalPreorder(ByCode)
  {
    forall a, b ensures ByCode(a, b) || ByCode(b, a) {
      StrLeTotal(a.key.0, b.key.0);
    }
    forall a, b, c | ByCode(a, b) && ByCode(b, c) ensures ByCode(a, c) {
      StrLeTransitive(a.key.0, b.key.0, c.key.0);
    }
  }

  /**
   * Mean salary per (type_code, description) of experience_level: exactly one
   * entry per group present in the table, each with its rounded mean, in
   * ascending type_code order.
   */
  function AvgByExperience(vs: seq<JobView>): (r: seq<Group<(string, string)>>)
    ensures |r| == |Distinct(Keys(vs, ExperienceKey))|
    ensures forall g :: g in r <==> IsGroupOf(vs, ExperienceKey, g)
    ensures forall i, j :: 0 <= i < j < |r| ==> StrLe(r[i].key.0, r[j].key.0)
    ensures DistinctBy(r, GroupKey)
  {
    var gs := GroupMeans(vs, ExperienceKey);
    ByCodeOrder();
    var r := SortBy(gs, ByCode);
    PermutationMembers(gs, r);
    PermutationDistinctBy(gs, r, GroupKey);
    r
  }

  // ---------------------------------------------------------------- jobs by location

  function LocationKey(v: JobView): string { v.companyLocationCode }

  /** One group of values('company_location__country_code').annotate(job_count=Count('id')). */
  datatype LocationCount = LocationCount(countryCode: string, jobCount: nat)

  function JobCount(c: LocationCount): int { c.jobCount }

  function CountryCodeOfCount(c: LocationCount): string { c.countryCode }

  /** The count of each value of `ds` among `ks`. */
  function Tallies(ks: seq<string>, ds: seq<string>): (ts: seq<LocationCount>)
    ensures |ts| == |ds|
    ensures forall i :: 0 <= i < |ds| ==> ts[i] == LocationCount(ds[i], Count(ks, ds[i]))
  {
    if ds == [] then [] else [LocationCount(ds[0], Count(ks, ds[0]))] + Tallies(ks, ds[1..])
  }

  /** One more occurrence of `x` adds, over the tallies of `ds`, the number of times `x` is in `ds`. */
  lemma {:induction false} TalliesCons(x: string, ks: seq<string>, ds: seq<string>)
    ensures SumBy(Tallies([x] + ks, ds), JobCount) == SumBy(Tallies(ks, ds), JobCount) + Count(ds, x)
  {
    if ds != [] {
      TalliesCons(x, ks, ds[1..]);
      assert ([x] + ks)[1..] == ks;
    }
  }

  lemma {:induction false} UniqueCount(ds: seq<string>, x: string)
    requires Unique(ds)
    ensures Count(ds, x) == if x in ds then 1 else 0
  {
    if ds != [] {
      assert Unique(ds[1..]) by {
        forall i, j | 0 <= i < j < |ds[1..]| ensures ds[1..][i] != ds[1..][j] {
          assert ds[1..][i] == ds[i + 1] && ds[1..][j] == ds[j + 1];
        }
      }
      UniqueCount(ds[1..], x);
      if ds[0] == x {
        assert x !in ds[1..] by {
          forall k | 0 <= k < |ds[1..]| ensures ds[1..][k] != x {
            assert ds[1..][k] == ds[k + 1];
          }
        }
      }
      assert ds == [ds[0]] + ds[1..];
    }
  }

  /** The per-value counts of a sequence add up to its length. */
  lemma {:induction false} TalliesTotal(ks: seq<string>)
    ensures SumBy(Tallies(ks, Distinct(ks)), JobCount) == |ks|
  {
    if ks != [] {
      var x, rest := ks[0], ks[1..];
      assert ks == [x] + rest;
      var d := Distinct(rest);
      TalliesTotal(rest);
      TalliesCons(x, rest, d);
      UniqueCount(d, x);
      if x !in d {
        assert Distinct(ks) == [x] + d;
        assert Count(rest, x) == 0;
        assert Tallies(ks, [x] + d)[1..] == Tallies(ks, d);
      }
    }
  }

  /** order_by('-job_count'). */
  function ByCountDesc(a: LocationCount, b: LocationCount): bool { a.jobCount >= b.jobCount }

  lemma ByCountDescOrder()
    ensures TotalPreorder(ByCountDesc)
  {
  }

  /** The tallies of the distinct values of `ks`: one per value, with its count. */
  lemma TalliesOfDistinct(ks: seq<string>)
    ensures forall c :: c in Tallies(ks, Distinct(ks)) <==> c.countryCode in ks && c.jobCount == Count(ks, c.countryCode)
    ensures DistinctBy(Tallies(ks, Distinct(ks)), CountryCodeOfCount)
  {
    var ds := Distinct(ks);
    var ts := Tallies(ks, ds);
    forall c: LocationCount | c.countryCode in ks && c.jobCount == Count(ks, c.countryCode) ensures c in ts {
      var i :| 0 <= i < |ds| && ds[i] == c.countryCode;
      assert ts[i] == c;
    }
    assert forall i :: 0 <= i < |ts| ==> ts[i].countryCode == ds[i];
  }

  /**
   * The number of JobRecords per company country code: one entry per code
   * present, each with the number of records at that code, in non-increasing
   * count order; the counts add up to the number of JobRecords.
   */
  function JobsByLocation(vs: seq<JobView>): (r: seq<LocationCount>)
    ensures |r| == |Distinct(Keys(vs, LocationKey))|
    ensures forall c :: c in r <==>
      c.countryCode in Keys(vs, LocationKey) && c.jobCount == Count(Keys(vs, LocationKey), c.countryCode)
    ensures forall c :: c in r ==> c.jobCount > 0
    ensures forall i, j :: 0 <= i < j < |r| ==> r[i].jobCount >= r[j].jobCount
    ensures DistinctBy(r, CountryCodeOfCount)
    ensures SumBy(r, JobCount) == |vs|
  {
    var ks := Keys(vs, LocationKey);
    var ts := Tallies(ks, Distinct(ks));
    ByCountDescOrder();
    var r := SortBy(ts, ByCountDesc);
    TalliesOfDistinct(ks);
    PermutationMembers(ts, r);
    PermutationDistinctBy(ts, r, CountryCodeOfCount);
    TalliesTotal(ks);
    SortBySum(ts, ByCountDesc, JobCount);
    r
  }

  // ---------------------------------------------------------------- remote ratio

  function RatioKey(v: JobView): int { v.remoteRatio }

  datatype RemoteSummary = RemoteSummary(remoteJobs: nat, totalJobs: nat, remotePercentage: real)

  /**
   * remote_jobs counts the records whose remote_ratio is exactly 100; the
   * percentage is remote_jobs / total_jobs * 100, or 0 when there is no
   * record, and lies between 0 and 100.
   */
  function RemoteRatio(vs: seq<JobView>): (s: RemoteSummary)
    ensures s.totalJobs == |vs|
    ensures s.remoteJobs == Count(Keys(vs, RatioKey), 100)
    ensures s.remoteJobs <= s.totalJobs
    ensures s.totalJobs == 0 ==> s.remotePercentage == 0.0
    ensures s.totalJobs > 0 ==> s.remotePercentage == Share(s.remoteJobs, s.totalJobs)
  {
    var total := |vs|;
    var remote := Count(Keys(vs, RatioKey), 100);
    RemoteSummary(remote, total, if total > 0 then Share(remote, total) else 0.0)
  }

  /** The share of fully remote jobs is a percentage: remote / total * 100, between 0 and 100. */
  lemma RemotePercentage(vs: seq<JobView>)
    ensures var s := RemoteRatio(vs);
      && (s.totalJobs > 0 ==> s.remotePercentage * s.totalJobs as real == 100.0 * s.remoteJobs as real)
      && 0.0 <= s.remotePercentage <= 100.0
  {
    var s := RemoteRatio(vs);
    if s.totalJobs > 0 {
      Percentage(s.remoteJobs, s.totalJobs);
    }
  }


  /** A record counts as remote exactly when its remote_ratio is 100. */
  lemma {:induction false} RemoteCountsFullyRemote(vs: seq<JobView>)
    ensures RemoteRatio(vs).remoteJobs == |Filter(vs, (v: JobView) => v.remoteRatio == 100)|
  {
    if vs != [] {
      RemoteCountsFullyRemote(vs[1..]);
      assert Keys(vs, RatioKey)[1..] == Keys(vs[1..], RatioKey);
    }
  }

  // ---------------------------------------------------------------- the report

  datatype QueryResults = QueryResults(
    topJobTitles: seq<Group<string>>,
    avgByExperience: seq<Group<(string, string)>>,
    jobsByLocation: seq<LocationCount>,
    remote: RemoteSummary)

  /**
   * run_advanced_queries: the four queries over the current tables. It has no
   * modifies clause, so no table changes.
   */
  method RunAdvancedQueries(db: Database) returns (q: QueryResults)
    ensures var vs := JobViews(db.jobs, db.jobTitles, db.contracts, db.locations);
      && q.topJobTitles == TopJobTitles(vs)
      && q.avgByExperience == AvgByExperience(vs)
      && q.jobsByLocation == JobsByLocation(vs)
      && q.remote == RemoteRatio(vs)
    ensures |q.topJobTitles| <= 5
    ensures SumBy(q.jobsByLocation, JobCount) == |db.jobs|
    ensures q.remote.totalJobs == |db.jobs|
  {
    var vs := JobViews(db.jobs, db.jobTitles, db.contracts, db.locations);
    q := QueryResults(TopJobTitles(vs), AvgByExperience(vs), JobsByLocation(vs), RemoteRatio(vs));
  }
}
