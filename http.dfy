/**
 * What a view returns, as a value: a redirect to a named route, a rendered
 * page, or the 404 of get_object_or_404.
 */
module Http {
  import opened Tables
  import opened FeedbacksForms

  datatype HttpMethod = Get | Post

  /** The named routes the views redirect to. */
  datatype Route = FeedbackDetail(pk: Id) | FeedbackListPage | JobFeedbacksPage(jobId: Id)

  datatype Response =
    | Redirect(to: Route)
    /** The form page, with the errors of a rejected submission (none for a GET). */
    | FormPage(errors: seq<FormError>)
    | ConfirmDelete(pk: Id)
    | NotFound
}
