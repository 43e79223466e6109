/**
 * FeedbackForm of asite/feedbacks/forms.py: a ModelForm over the job,
 * author_name, comment and rating columns of Feedbacks, with its own
 * clean_rating range check.
 */
module FeedbacksForms {
  import opened Tables
  import opened Text
  import opened FeedbacksModels

  /** The submitted values of the four form fields. */
  datatype FeedbackForm = FeedbackForm(job: Id, authorName: Id, comment: string, rating: int)

  datatype Field = JobField | AuthorNameField | CommentField | RatingField

  /** A field error: a foreign key that names no row, an empty required field, a clean_* message. */
  datatype FormError = InvalidChoice(field: Field) | Required(field: Field) | Invalid(field: Field, message: string)

  /** The position of a field in the form's declaration order. */
  function FieldRank(f: Field): nat {
    match f
    case JobField => 0
    case AuthorNameField => 1
    case CommentField => 2
    case RatingField => 3
  }

  /**
   * The errors the form can report for each field: an unknown row for the
   * two foreign keys, a blank or a null-character comment, and
   * clean_rating's message.
   */
  predicate Reportable(e: FormError) {
    match e.field
    case JobField => e == InvalidChoice(JobField)
    case AuthorNameField => e == InvalidChoice(AuthorNameField)
    case CommentField => e == Required(CommentField) || e == Invalid(CommentField, NullMessage)
    case RatingField => e == Invalid(RatingField, RatingMessage)
  }

  /** Every error listed is one its field can report. */
  predicate OwnErrors(errs: seq<FormError>) {
    forall e :: e in errs ==> Reportable(e)
  }

  /** Errors listed in declaration order of their fields, at most one per field. */
  predicate FieldsAscending(errs: seq<FormError>) {
    forall i, j :: 0 <= i < j < |errs| ==> FieldRank(errs[i].field) < FieldRank(errs[j].field)
  }

  /** An error for a field ranked below every field of an ascending list keeps it ascending. */
  lemma PrependAscending(first: seq<FormError>, rest: seq<FormError>, rank: nat)
    requires |first| <= 1 && forall e :: e in first ==> FieldRank(e.field) == rank
    requires FieldsAscending(rest) && forall e :: e in rest ==> rank < FieldRank(e.field)
    requires OwnErrors(first) && OwnErrors(rest)
    ensures FieldsAscending(first + rest) && OwnErrors(first + rest)
  {
    var t := first + rest;
    forall i, j | 0 <= i < j < |t|
      ensures FieldRank(t[i].field) < FieldRank(t[j].field)
    {
      if i < |first| {
        assert t[i] in first && t[j] == rest[j - |first|];
      } else {
        assert t[i] == rest[i - |first|] && t[j] == rest[j - |first|];
      }
    }
  }

  /** Four per-field error lists, in declaration order, concatenate to an ascending list of their errors. */
  lemma FieldByField(job: seq<FormError>, author: seq<FormError>, comment: seq<FormError>, rating: seq<FormError>)
    requires |job| <= 1 && OwnErrors(job) && forall e :: e in job ==> e.field == JobField
    requires |author| <= 1 && OwnErrors(author) && forall e :: e in author ==> e.field == AuthorNameField
    requires |comment| <= 1 && OwnErrors(comment) && forall e :: e in comment ==> e.field == CommentField
    requires |rating| <= 1 && OwnErrors(rating) && forall e :: e in rating ==> e.field == RatingField
    ensures var all := job + (author + (comment + rating));
      && FieldsAscending(all)
      && OwnErrors(all)
      && (forall e :: e in all <==> e in job || e in author || e in comment || e in rating)
      && |all| <= 4
  {
    PrependAscending(comment, rating, 2);
    PrependAscending(author, comment + rating, 1);
    PrependAscending(job, author + (comment + rating), 0);
  }

  const RatingMessage: string := "Rating must be between 1 and 5."

  /** The message of Django's ProhibitNullCharactersValidator, which every form CharField runs. */
  const NullMessage: string := "Null characters are not allowed."

  /**
   * The comment field's clean(): the text stripped; a required error when
   * nothing is left, which stops the field's validators; otherwise the null
   * character check.
   */
  function CleanComment(comment: string): (r: Result<string, FormError>)
    ensures r.Ok? <==> Strip(comment) != "" && '\0' !in Strip(comment)
    ensures r.Ok? ==> r.value == Strip(comment)
    ensures r == Err(Required(CommentField)) <==> Strip(comment) == ""
    ensures r == Err(Invalid(CommentField, NullMessage)) <==> Strip(comment) != "" && '\0' in Strip(comment)
  {
    var text := Strip(comment);
    if text == "" then Err(Required(CommentField))
    else if '\0' in text then Err(Invalid(CommentField, NullMessage))
    else Ok(text)
  }

  /** clean_rating: the rating unchanged when it lies in 1..5, otherwise the form's own message. */
  function CleanRating(rating: int): (r: Result<int, string>)
    ensures r.Ok? <==> 1 <= rating <= 5
    ensures r.Ok? ==> r.value == rating
    ensures r.Err? ==> r.error == RatingMessage
  {
    if rating < 1 || rating > 5 then Err(RatingMessage) else Ok(rating)
  }

  /** clean_rating accepts exactly the ratings the model's validators accept. */
  lemma CleanRatingAgreesWithValidators(rating: int)
    ensures CleanRating(rating).Ok? <==> RatingValidatorErrors(rating) == []
  {
  }

  /**
   * The error list of four field verdicts in declaration order: an unknown
   * job or author, the comment field's clean() outcome, and clean_rating's.
   */
  function CollectErrors(jobOk: bool, authorOk: bool, comment: Result<string, FormError>, rating: Result<int, string>): (errs: seq<FormError>)
    requires comment.Err? ==> comment.error.field == CommentField && Reportable(comment.error)
    requires rating.Err? ==> rating.error == RatingMessage
    ensures InvalidChoice(JobField) in errs <==> !jobOk
    ensures InvalidChoice(AuthorNameField) in errs <==> !authorOk
    ensures Required(CommentField) in errs <==> comment == Err(Required(CommentField))
    ensures Invalid(CommentField, NullMessage) in errs <==> comment == Err(Invalid(CommentField, NullMessage))
    ensures Invalid(RatingField, RatingMessage) in errs <==> rating.Err?
    ensures OwnErrors(errs) && FieldsAscending(errs)
    ensures |errs| <= 4
    ensures errs == [] <==> jobOk && authorOk && comment.Ok? && rating.Ok?
  {
    var jobErrs := if jobOk then [] else [InvalidChoice(JobField)];
    var authorErrs := if authorOk then [] else [InvalidChoice(AuthorNameField)];
    var commentErrs := match comment
      case Ok(_) => []
      case Err(e) => [e];
    var ratingErrs := match rating
      case Ok(_) => []
      case Err(msg) => [Invalid(RatingField, msg)];
    FieldByField(jobErrs, authorErrs, commentErrs, ratingErrs);
    jobErrs + (authorErrs + (commentErrs + ratingErrs))
  }

  /**
   * The errors of form.is_valid(), field by field in declaration order. The
   * comment is stripped before the required check, and a non-blank comment
   * holding a null character is refused. A rating that fails
   * clean_rating is excluded from model validation, so the model's own
   * range validators never add a second rating error.
   */
  function FormErrors(form: FeedbackForm, jobIds: set<Id>, candidateIds: set<Id>): (errs: seq<FormError>)
    ensures InvalidChoice(JobField) in errs <==> form.job !in jobIds
    ensures InvalidChoice(AuthorNameField) in errs <==> form.authorName !in candidateIds
    ensures Required(CommentField) in errs <==> Strip(form.comment) == ""
    ensures Invalid(CommentField, NullMessage) in errs <==> Strip(form.comment) != "" && '\0' in Strip(form.comment)
    ensures Invalid(RatingField, RatingMessage) in errs <==> !(1 <= form.rating <= 5)
    ensures OwnErrors(errs)
    ensures FieldsAscending(errs)
    ensures |errs| <= 4
    ensures errs == [] <==>
      form.job in jobIds && form.authorName in candidateIds && Strip(form.comment) != ""
      && '\0' !in Strip(form.comment) && RatingValidatorErrors(form.rating) == []
  {
    CollectErrors(form.job in jobIds, form.authorName in candidateIds, CleanComment(form.comment), CleanRating(form.rating))
  }

  /**
   * A null character anywhere in the comment makes the form invalid: it is
   * not whitespace, so stripping cannot remove it.
   */
  lemma NullCharacterRefused(form: FeedbackForm, jobIds: set<Id>, candidateIds: set<Id>)
    requires '\0' in form.comment
    ensures Invalid(CommentField, NullMessage) in FormErrors(form, jobIds, candidateIds)
  {
    var k :| 0 <= k < |form.comment| && form.comment[k] == '\0';
    StripKeeps(form.comment, k);
  }

  /**
   * form.save() on an instance: the four form fields take their cleaned
   * values (the comment stripped); created_at is not a form field and stays.
   */
  function ApplyForm(instance: Feedbacks, form: FeedbackForm): (f: Feedbacks)
    ensures f.createdAt == instance.createdAt
    ensures f.job == form.job && f.authorName == form.authorName && f.rating == form.rating
    ensures f.comment == Strip(form.comment)
  {
    instance.(job := form.job, authorName := form.authorName, comment := Strip(form.comment), rating := form.rating)
  }
}
