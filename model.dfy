/** The persisted entities and the request payloads of the review service. */
module Model {

  /** java.util.UUID, treated as an opaque identifier. */
  datatype Uuid = Uuid(bits: nat)

  /** java.util.Date: milliseconds since the epoch. */
  datatype Date = Date(millis: int)

  /** A reply embedded in a review's response list. */
  datatype Response = Response(id: Uuid, date: Date, message: string, senderId: Uuid)

  /** The review document, in the eight-field shape the service builds and reads. */
  datatype Review = Review(
    id: Uuid,
    grade: int,
    message: string,
    senderId: Uuid,
    userId: Uuid,
    responseList: seq<Response>,
    date: Date,
    offerId: Uuid)

  /** Body of a creation request. */
  datatype ReviewDto = ReviewDto(grade: int, message: string, senderId: Uuid, userId: Uuid, offerId: Uuid)

  /** Body of a partial update: only grade and message can change after creation. */
  datatype PatchReviewDto = PatchReviewDto(grade: int, message: string)

  /** Body of a request that adds a response. */
  datatype ResponseDto = ResponseDto(message: string, senderId: Uuid)

  /** A review joined with its resolved sender, subject user and offer;
      `U` and `O` are the opaque user and offer payloads. */
  datatype DetailedReview<U, O> = DetailedReview(
    id: Uuid,
    grade: int,
    message: string,
    sender: U,
    user: U,
    responseList: seq<Response>,
    date: Date,
    offer: O)
}
