/**
 * The page views of asite/feedbacks/views.py: the feedback list (search on
 * the comment, order_by, ten per page with clamping) and the create, update
 * and delete views that write the Feedbacks table through the form.
 */
module FeedbacksViews {
  import opened Tables
  import opened Text
  import opened Sorting
  import opened FeedbacksModels
  import opened FeedbacksForms
  import opened Store
  import opened Http

  // ---------------------------------------------------------------- search

  /** filter(comment__icontains=q), skipped when q is empty. */
  function Search(rows: seq<Row<Feedbacks>>, q: string): (r: seq<Row<Feedbacks>>)
    ensures forall f :: f in r <==> f in rows && (q == "" || IContains(f.val.comment, q))
    ensures forall f :: multiset(r)[f] == if q == "" || IContains(f.val.comment, q) then multiset(rows)[f] else 0
    ensures |r| <= |rows|
  {
    if q == "" then rows
    else
      var matches := (f: Row<Feedbacks>) => IContains(f.val.comment, q);
      FilterCounts(rows, matches);
      Filter(rows, matches)
  }

  // ---------------------------------------------------------------- ordering

  datatype SortField = CreatedAt | Rating

  /** A parsed order_by argument: a field, ascending or descending ('-' prefix). */
  datatype Ordering = Ordering(field: SortField, descending: bool)

  /**
   * The order_by arguments the list accepts: created_at and rating, each with
   * an optional '-'. Anything else names no orderable field.
   */
  function ParseOrdering(sortBy: string): (o: Option<Ordering>)
    ensures o.Some? <==> sortBy in {"created_at", "-created_at", "rating", "-rating"}
    ensures o.Some? ==> (o.value.descending <==> sortBy[0] == '-')
    ensures o.Some? ==> (o.value.field == CreatedAt <==> sortBy in {"created_at", "-created_at"})
  {
    if sortBy == "created_at" then Some(Ordering(CreatedAt, false))
    else if sortBy == "-created_at" then Some(Ordering(CreatedAt, true))
    else if sortBy == "rating" then Some(Ordering(Rating, false))
    else if sortBy == "-rating" then Some(Ordering(Rating, true))
    else None
  }

  function SortValue(f: Row<Feedbacks>, field: SortField): int {
    match field
    case CreatedAt => f.val.createdAt
    case Rating => f.val.rating
  }

  /** `a` may come before `b` under ordering `o`. */
  predicate Before(o: Ordering, a: Row<Feedbacks>, b: Row<Feedbacks>) {
    if o.descending then SortValue(a, o.field) >= SortValue(b, o.field)
    else SortValue(a, o.field) <= SortValue(b, o.field)
  }

  function Comparator(o: Ordering): (Row<Feedbacks>, Row<Feedbacks>) -> bool {
    (a, b) => Before(o, a, b)
  }

  lemma ComparatorOrder(o: Ordering)
    ensures TotalPreorder(Comparator(o))
  {
  }

  /** order_by(sort_by): a permutation of the rows in which each row may precede the next. */
  function OrderBy(rows: seq<Row<Feedbacks>>, o: Ordering): (r: seq<Row<Feedbacks>>)
    ensures multiset(r) == multiset(rows) && |r| == |rows|
    ensures forall i, j :: 0 <= i < j < |r| ==> Before(o, r[i], r[j])
  {
    ComparatorOrder(o);
    SortBy(rows, Comparator(o))
  }

  // ---------------------------------------------------------------- pagination

  const PerPage: nat := 10

  /**
   * Paginator.num_pages with the default allow_empty_first_page: at least
   * one page, and just enough pages of PerPage to hold `count` items.
   */
  function NumPages(count: nat): (n: nat)
    ensures n >= 1
    ensures count == 0 ==> n == 1
    ensures count > 0 ==> (n - 1) * PerPage < count <= n * PerPage
  {
    if count == 0 then 1 else (count + PerPage - 1) / PerPage
  }

  /**
   * The page number feedback_list serves for the `page` parameter: 1 when it
   * is absent or not an integer (PageNotAnInteger), the number itself when it
   * names a page, and the last page when it is below 1 or past the end
   * (EmptyPage).
   */
  function PageNumber(param: Option<string>, numPages: nat): (k: nat)
    requires numPages >= 1
    ensures 1 <= k <= numPages
    ensures param.None? ==> k == 1
    ensures param.Some? && ParseInt(param.value).None? ==> k == 1
    ensures param.Some? && ParseInt(param.value).Some? && 1 <= ParseInt(param.value).value <= numPages ==>
      k == ParseInt(param.value).value
    ensures param.Some? && ParseInt(param.value).Some? && !(1 <= ParseInt(param.value).value <= numPages) ==>
      k == numPages
  {
    match param
    case None => 1
    case Some(s) =>
      match ParseInt(s)
      case None => 1
      case Some(n) => if 1 <= n <= numPages then n else numPages
  }

  /** Paginator.page(k): the k-th run of PerPage items, shorter only on the last page. */
  function Page<T>(items: seq<T>, k: nat): (p: seq<T>)
    requires 1 <= k <= NumPages(|items|)
    ensures |p| <= PerPage && (k - 1) * PerPage + |p| <= |items|
    ensures forall i :: 0 <= i < |p| ==> p[i] == items[(k - 1) * PerPage + i]
    ensures k < NumPages(|items|) ==> |p| == PerPage
    ensures |items| > 0 ==> |p| > 0
  {
    var lo := (k - 1) * PerPage;
    var hi := if k * PerPage < |items| then k * PerPage else |items|;
    items[lo..hi]
  }

  /** Every item is on exactly the page its position says, at the offset its position says. */
  lemma ItemOnPage<T>(items: seq<T>, i: nat)
    requires i < |items|
    ensures 1 <= i / PerPage + 1 <= NumPages(|items|)
    ensures |Page(items, i / PerPage + 1)| > i % PerPage
    ensures Page(items, i / PerPage + 1)[i % PerPage] == items[i]
  {
  }

  // ---------------------------------------------------------------- the list view

  function OrElse<T>(o: Option<T>, default: T): T {
    match o
    case Some(v) => v
    case None => default
  }

  /** What feedback_list renders. */
  datatype ListContext = ListContext(
    page: seq<Row<Feedbacks>>,
    pageNumber: nat,
    numPages: nat,
    searchQuery: string,
    sortBy: string)

  /** order_by on a name that is not an orderable field raises FieldError. */
  datatype ListError = FieldError(sortBy: string)

  /**
   * feedback_list: search the comments, order by `sort` (default
   * '-created_at'), and serve one page of ten. A sort argument that names
   * no orderable field is an error; otherwise the search and sort parameters
   * are echoed back, and the page served is the clamped page of the ordered
   * matches.
   */
  function FeedbackList(rows: seq<Row<Feedbacks>>, search: Option<string>, sort: Option<string>,
                        page: Option<string>): (r: Result<ListContext, ListError>)
    ensures r.Err? <==> ParseOrdering(OrElse(sort, "-created_at")).None?
    ensures r.Err? ==> r.error == FieldError(OrElse(sort, "-created_at"))
    ensures r.Ok? ==> r.value.searchQuery == OrElse(search, "") && r.value.sortBy == OrElse(sort, "-created_at")
    ensures r.Ok? ==> r.value.numPages == NumPages(|Search(rows, OrElse(search, ""))|)
    ensures r.Ok? ==> 1 <= r.value.pageNumber <= r.value.numPages
    ensures r.Ok? ==> r.value.pageNumber == PageNumber(page, r.value.numPages)
    ensures r.Ok? ==>
      r.value.page == Page(OrderBy(Search(rows, OrElse(search, "")), ParseOrdering(OrElse(sort, "-created_at")).value),
                           r.value.pageNumber)
  {
    var q := OrElse(search, "");
    var sortBy := OrElse(sort, "-created_at");
    match ParseOrdering(sortBy)
    case None => Err(FieldError(sortBy))
    case Some(o) =>
      var ordered := OrderBy(Search(rows, q), o);
      var n := NumPages(|ordered|);
      var k := PageNumber(page, n);
      Ok(ListContext(Page(ordered, k), k, n, q, sortBy))
  }

  /** Any page of the ordered rows holds stored rows, in order. */
  lemma PageOfOrdered(rows: seq<Row<Feedbacks>>, o: Ordering, k: nat)
    requires 1 <= k <= NumPages(|rows|)
    ensures forall f :: f in Page(OrderBy(rows, o), k) ==> f in rows
    ensures var p := Page(OrderBy(rows, o), k);
      forall i, j :: 0 <= i < j < |p| ==> Before(o, p[i], p[j])
  {
    var ordered := OrderBy(rows, o);
    PageMembers(ordered, k);
    PageSorted(ordered, o, k);
    forall f | f in ordered ensures f in rows {
      assert f in multiset(ordered);
    }
  }

  /** A page holds items of the list. */
  lemma PageMembers<T>(items: seq<T>, k: nat)
    requires 1 <= k <= NumPages(|items|)
    ensures forall x :: x in Page(items, k) ==> x in items
  {
    var p := Page(items, k);
    forall x | x in p ensures x in items {
      var i :| 0 <= i < |p| && p[i] == x;
      assert x == items[(k - 1) * PerPage + i];
    }
  }

  /** A page of an ordered list is ordered. */
  lemma PageSorted(items: seq<Row<Feedbacks>>, o: Ordering, k: nat)
    requires 1 <= k <= NumPages(|items|)
    requires forall i, j :: 0 <= i < j < |items| ==> Before(o, items[i], items[j])
    ensures var p := Page(items, k);
      forall i, j :: 0 <= i < j < |p| ==> Before(o, p[i], p[j])
  {
    var p := Page(items, k);
    var lo := (k - 1) * PerPage;
    forall i, j | 0 <= i < j < |p| ensures Before(o, p[i], p[j]) {
      assert p[i] == items[lo + i] && p[j] == items[lo + j];
    }
  }

  /**
   * The page served holds at most ten rows, each a stored row whose comment
   * matches the search, in the requested order.
   */
  lemma ListPageContents(rows: seq<Row<Feedbacks>>, search: Option<string>, sort: Option<string>, page: Option<string>)
    requires FeedbackList(rows, search, sort, page).Ok?
    ensures var p := FeedbackList(rows, search, sort, page).value.page;
      && |p| <= PerPage
      && (forall f :: f in p ==> f in rows && (OrElse(search, "") == "" || IContains(f.val.comment, OrElse(search, ""))))
      && forall i, j :: 0 <= i < j < |p| ==> Before(ParseOrdering(OrElse(sort, "-created_at")).value, p[i], p[j])
  {
    var r := FeedbackList(rows, search, sort, page).value;
    PageOfOrdered(Search(rows, OrElse(search, "")), ParseOrdering(OrElse(sort, "-created_at")).value, r.pageNumber);
  }

  /** With no sort parameter the list shows the newest feedback first. */
  lemma DefaultListNewestFirst(rows: seq<Row<Feedbacks>>, search: Option<string>, page: Option<string>)
    ensures FeedbackList(rows, search, None, page).Ok?
    ensures var p := FeedbackList(rows, search, None, page).value.page;
      forall i, j :: 0 <= i < j < |p| ==> p[i].val.createdAt >= p[j].val.createdAt
  {
    var o := Ordering(CreatedAt, true);
    assert ParseOrdering("-created_at") == Some(o);
    var r := FeedbackList(rows, search, None, page);
    var matching := Search(rows, OrElse(search, ""));
    PageOfOrdered(matching, o, r.value.pageNumber);
  }

  /** The list never serves an empty page while some feedback matches the search. */
  lemma ListPageNonEmpty(rows: seq<Row<Feedbacks>>, search: Option<string>, sort: Option<string>, page: Option<string>)
    requires FeedbackList(rows, search, sort, page).Ok?
    requires |Search(rows, OrElse(search, ""))| > 0
    ensures |FeedbackList(rows, search, sort, page).value.page| > 0
  {
  }

  // ---------------------------------------------------------------- the detail view

  /** feedback_detail: the row with that pk, or None (the 404). */
  function Detail(rows: seq<Row<Feedbacks>>, pk: Id): (r: Option<Row<Feedbacks>>)
    ensures r.None? <==> pk !in Ids(rows)
    ensures r.Some? ==> r.value in rows && r.value.id == pk
  {
    match Tables.Get(rows, pk)
    case None => None
    case Some(v) => Some(Row(pk, v))
  }

  /** The detail page feedback_create redirects to shows the row just saved. */
  lemma DetailOfCreated(rows: seq<Row<Feedbacks>>, row: Row<Feedbacks>)
    requires Keyed(rows, row.id)
    ensures Detail(rows + [row], row.id) == Some(row)
  {
    var t := rows + [row];
    assert t[|rows|] == row;
    assert forall i :: 0 <= i < |rows| ==> t[i].id != row.id;
  }

  // ---------------------------------------------------------------- the write views

  /**
   * feedback_create: a valid POST saves a new Feedbacks row stamped `now`
   * and redirects to its detail page; an invalid POST or a GET renders the
   * form and writes nothing.
   */
  method FeedbackCreate(db: Database, m: HttpMethod, form: FeedbackForm, now: int) returns (resp: Response)
    requires db.Valid()
    modifies db`feedbacks, db`nextId
    ensures db.Valid()
    ensures m == Get ==> resp == FormPage([]) && db.feedbacks == old(db.feedbacks) && db.nextId == old(db.nextId)
    ensures m == Post && FormErrors(form, Ids(db.jobs), Ids(db.candidates)) != [] ==>
      && resp == FormPage(FormErrors(form, Ids(db.jobs), Ids(db.candidates)))
      && db.feedbacks == old(db.feedbacks) && db.nextId == old(db.nextId)
    ensures m == Post && FormErrors(form, Ids(db.jobs), Ids(db.candidates)) == [] ==>
      && resp == Redirect(FeedbackDetail(old(db.nextId)))
      && db.feedbacks == old(db.feedbacks)
         + [Row(old(db.nextId), Feedbacks(form.job, form.authorName, Strip(form.comment), form.rating, now))]
  {
    if m == Get {
      return FormPage([]);
    }
    var errs := FormErrors(form, Ids(db.jobs), Ids(db.candidates));
    if errs != [] {
      return FormPage(errs);
    }
    var res := db.CreateFeedbacks(form.job, form.authorName, Strip(form.comment), form.rating, now);
    assert res.Ok?;
    resp := Redirect(FeedbackDetail(res.value));
  }

  /**
   * feedback_update: 404 for an unknown pk; a valid POST rewrites that row
   * through the form (created_at kept) and redirects to its detail page;
   * an invalid POST or a GET renders the form and writes nothing.
   */
  method FeedbackUpdate(db: Database, pk: Id, m: HttpMethod, form: FeedbackForm) returns (resp: Response)
    requires db.Valid()
    modifies db`feedbacks
    ensures db.Valid()
    ensures pk !in Ids(old(db.feedbacks)) ==> resp == NotFound && db.feedbacks == old(db.feedbacks)
    ensures pk in Ids(old(db.feedbacks)) && m == Get ==> resp == FormPage([]) && db.feedbacks == old(db.feedbacks)
    ensures pk in Ids(old(db.feedbacks)) && m == Post && FormErrors(form, Ids(db.jobs), Ids(db.candidates)) != [] ==>
      resp == FormPage(FormErrors(form, Ids(db.jobs), Ids(db.candidates))) && db.feedbacks == old(db.feedbacks)
    ensures pk in Ids(old(db.feedbacks)) && m == Post && FormErrors(form, Ids(db.jobs), Ids(db.candidates)) == [] ==>
      && resp == Redirect(FeedbackDetail(pk))
      && db.feedbacks == Replace(old(db.feedbacks), pk, ApplyForm(Tables.Get(old(db.feedbacks), pk).value, form))
  {
    if pk !in Ids(db.feedbacks) {
      return NotFound;
    }
    if m == Get {
      return FormPage([]);
    }
    var errs := FormErrors(form, Ids(db.jobs), Ids(db.candidates));
    if errs != [] {
      return FormPage(errs);
    }
    SaveForm(db, pk, form);
    resp := Redirect(FeedbackDetail(pk));
  }

  /** form.save() on the instance with that pk, once the form is valid. */
  method SaveForm(db: Database, pk: Id, form: FeedbackForm)
    requires db.Valid()
    requires pk in Ids(db.feedbacks)
    requires FormErrors(form, Ids(db.jobs), Ids(db.candidates)) == []
    modifies db`feedbacks
    ensures db.Valid()
    ensures db.feedbacks == Replace(old(db.feedbacks), pk, ApplyForm(Tables.Get(old(db.feedbacks), pk).value, form))
  {
    var current := Tables.Get(db.feedbacks, pk).value;
    var res := db.SaveFeedbacks(pk, form.job, form.authorName, Strip(form.comment), form.rating);
    assert res.Ok?;
    assert ApplyForm(current, form) == Feedbacks(form.job, form.authorName, Strip(form.comment), form.rating, current.createdAt);
  }

  /**
   * feedback_delete: 404 for an unknown pk; a POST deletes that row and
   * redirects to the list; a GET asks for confirmation and deletes nothing.
   */
  method FeedbackDelete(db: Database, pk: Id, m: HttpMethod) returns (resp: Response)
    requires db.Valid()
    modifies db`feedbacks
    ensures db.Valid()
    ensures pk !in Ids(old(db.feedbacks)) ==> resp == NotFound && db.feedbacks == old(db.feedbacks)
    ensures pk in Ids(old(db.feedbacks)) && m == Get ==> resp == ConfirmDelete(pk) && db.feedbacks == old(db.feedbacks)
    ensures pk in Ids(old(db.feedbacks)) && m == Post ==>
      && resp == Redirect(FeedbackListPage)
      && forall f :: f in db.feedbacks <==> f in old(db.feedbacks) && f.id != pk
  {
    if pk !in Ids(db.feedbacks) {
      return NotFound;
    }
    if m == Get {
      return ConfirmDelete(pk);
    }
    var _ := db.DeleteFeedbacks(pk);
    resp := Redirect(FeedbackListPage);
  }
}
