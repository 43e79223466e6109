/**
 * The Feedbacks model of asite/feedbacks/models.py: a rating of one JobRecord
 * by one Candidate, with a timestamp stamped once when the row is created.
 */
module FeedbacksModels {
  import opened Tables

  /** created_at is a clock reading (auto_now_add), here an integer timestamp. */
  datatype Feedbacks = Feedbacks(job: Id, authorName: Id, comment: string, rating: int, createdAt: int)

  const MinRating: int := 1

  const MaxRating: int := 5

  /** A failure of one of the rating field's validators. */
  datatype ValidatorError = BelowMinValue(limit: int) | AboveMaxValue(limit: int)

  /**
   * MinValueValidator(1) and MaxValueValidator(5) on rating: both run, and
   * each contributes its own error.
   */
  function RatingValidatorErrors(rating: int): (errs: seq<ValidatorError>)
    ensures errs == [] <==> MinRating <= rating <= MaxRating
    ensures rating < MinRating ==> errs == [BelowMinValue(MinRating)]
    ensures rating > MaxRating ==> errs == [AboveMaxValue(MaxRating)]
  {
    (if rating < MinRating then [BelowMinValue(MinRating)] else [])
    + (if rating > MaxRating then [AboveMaxValue(MaxRating)] else [])
  }

  /**
   * Every stored feedback row points at an existing JobRecord and an existing
   * Candidate, and carries a validated rating.
   */
  predicate FeedbacksReference(rows: seq<Row<Feedbacks>>, jobIds: set<Id>, candidateIds: set<Id>) {
    forall i :: 0 <= i < |rows| ==>
      && rows[i].val.job in jobIds
      && rows[i].val.authorName in candidateIds
      && RatingValidatorErrors(rows[i].val.rating) == []
  }
}
