/** The review-management service: grade validation, create/read/update/delete
    of reviews, edits of a review's embedded response list, and the detail view
    that joins a review with its offer, sender and subject user.

    Fresh ids and timestamps (`UUID.randomUUID()`, `Date()`) are parameters.
    The user and offer lookups are parameters too: each either throws, returns
    null (`None`) or returns a payload. */
module Service {
  import opened Http
  import opened Model
  import opened Responses
  import opened Repository

  /** `validateGrade`: a grade is accepted exactly when it lies in [0, 5]. */
  function ValidateGrade(grade: int): (r: Result<()>)
    ensures r.Ok? <==> 0 <= grade <= 5
    ensures r.Err? ==> r.failure == ClientError(BAD_REQUEST)
  {
    if grade < 0 || grade > 5 then Err(ClientError(BAD_REQUEST)) else Ok(())
  }

  /** A lookup that neither threw nor returned null. */
  predicate Found<T>(x: Result<Option<T>>)
  {
    x.Ok? && x.value.Some?
  }

  class ReviewService {
    const repository: ReviewRepository

    ghost predicate Valid()
      reads this, repository
    {
      repository.Valid()
    }

    constructor (repository: ReviewRepository)
      requires repository.Valid()
      ensures this.repository == repository && Valid()
    {
      this.repository := repository;
    }

    /** `getReviews`: every stored review, each once, in repository order. */
    function GetReviews(): (rs: seq<Review>)
      reads this, repository
      requires Valid()
      ensures |rs| == |repository.order|
      ensures forall i :: 0 <= i < |rs| ==> rs[i] == repository.reviews[repository.order[i]]
      ensures forall k :: k in repository.reviews <==> exists i :: 0 <= i < |rs| && rs[i].id == k
    {
      var rs := repository.FindAll();
      forall k | k in repository.reviews
        ensures exists i :: 0 <= i < |rs| && rs[i].id == k
      {
        var i :| 0 <= i < |repository.order| && repository.order[i] == k;
        assert rs[i].id == k;
      }
      rs
    }

    /** `getReviewById`: the stored review, or NOT_FOUND. */
    function GetReviewById(id: Uuid): (r: Result<Review>)
      reads this, repository
      requires Valid()
      ensures r.Ok? <==> id in repository.reviews
      ensures r.Ok? ==> r.value == repository.reviews[id] && r.value.id == id
      ensures r.Err? ==> r.failure == ClientError(NOT_FOUND)
    {
      match repository.FindById(id)
      case Some(review) => Ok(review)
      case None => Err(ClientError(NOT_FOUND))
    }

    /** `createReview`: the grade is checked before anything is saved; the
        new review copies the request, starts with no responses, and is stored
        under the fresh id. */
    method CreateReview(dto: ReviewDto, newId: Uuid, now: Date) returns (r: Result<Review>)
      requires Valid()
      modifies repository
      ensures Valid()
      ensures !(0 <= dto.grade <= 5) ==>
        r == Err(ClientError(BAD_REQUEST)) && unchanged(repository)
      ensures 0 <= dto.grade <= 5 ==>
        && r.Ok?
        && r.value == Review(newId, dto.grade, dto.message, dto.senderId, dto.userId, [], now, dto.offerId)
        && repository.reviews == old(repository.reviews)[newId := r.value]
        && repository.order == (if newId in old(repository.reviews) then old(repository.order)
                                else old(repository.order) + [newId])
    {
      var valid := ValidateGrade(dto.grade);
      if valid.Err? {
        return Err(valid.failure);
      }
      var review := Review(newId, dto.grade, dto.message, dto.senderId, dto.userId, [], now, dto.offerId);
      var saved := repository.Save(review);
      r := Ok(saved);
    }

    /** `updateReview`: the grade is checked before the lookup; on success only
        grade and message change, and only in the review with this id. */
    method UpdateReview(id: Uuid, dto: PatchReviewDto) returns (r: Result<Review>)
      requires Valid()
      modifies repository
      ensures Valid()
      ensures !(0 <= dto.grade <= 5) ==>
        r == Err(ClientError(BAD_REQUEST)) && unchanged(repository)
      ensures 0 <= dto.grade <= 5 && id !in old(repository.reviews) ==>
        r == Err(ClientError(NOT_FOUND)) && unchanged(repository)
      ensures 0 <= dto.grade <= 5 && id in old(repository.reviews) ==>
        && r == Ok(old(repository.reviews)[id].(grade := dto.grade, message := dto.message))
        && repository.reviews == old(repository.reviews)[id := r.value]
        && repository.order == old(repository.order)
    {
      var valid := ValidateGrade(dto.grade);
      if valid.Err? {
        return Err(valid.failure);
      }
      var found := GetReviewById(id);
      if found.Err? {
        return Err(found.failure);
      }
      var updated := found.value.(grade := dto.grade, message := dto.message);
      var saved := repository.Save(updated);
      r := Ok(saved);
    }

    /** `addResponseToReview`: the list grows by exactly one response, built
        from the request, at its end. */
    method AddResponseToReview(id: Uuid, dto: ResponseDto, newId: Uuid, now: Date) returns (r: Result<Review>)
      requires Valid()
      modifies repository
      ensures Valid()
      ensures id !in old(repository.reviews) ==>
        r == Err(ClientError(NOT_FOUND)) && unchanged(repository)
      ensures id in old(repository.reviews) ==>
        var before := old(repository.reviews)[id].responseList;
        && r.Ok?
        && r.value == old(repository.reviews)[id].(responseList := r.value.responseList)
        && |r.value.responseList| == |before| + 1
        && r.value.responseList[..|before|] == before
        && r.value.responseList[|before|] == Response(newId, now, dto.message, dto.senderId)
        && repository.reviews == old(repository.reviews)[id := r.value]
        && repository.order == old(repository.order)
    {
      var found := GetReviewById(id);
      if found.Err? {
        return Err(found.failure);
      }
      var response := Response(newId, now, dto.message, dto.senderId);
      var updated := found.value.(responseList := found.value.responseList + [response]);
      var saved := repository.Save(updated);
      r := Ok(saved);
    }

    /** `modifyResponseOfReview`: every response with the supplied id is
        replaced by the supplied response; nothing else changes. */
    method ModifyResponseOfReview(id: Uuid, response: Response) returns (r: Result<Review>)
      requires Valid()
      modifies repository
      ensures Valid()
      ensures id !in old(repository.reviews) ==>
        r == Err(ClientError(NOT_FOUND)) && unchanged(repository)
      ensures id in old(repository.reviews) ==>
        var before := old(repository.reviews)[id];
        && r == Ok(before.(responseList := ReplaceMatching(before.responseList, response)))
        && repository.reviews == old(repository.reviews)[id := r.value]
        && repository.order == old(repository.order)
    {
      var found := GetReviewById(id);
      if found.Err? {
        return Err(found.failure);
      }
      var updated := found.value.(responseList := ReplaceMatching(found.value.responseList, response));
      var saved := repository.Save(updated);
      r := Ok(saved);
    }

    /** `deleteResponseOfReview`: every response with the supplied response's
        id is dropped; only that id is consulted. */
    method DeleteResponseOfReview(id: Uuid, response: Response) returns (r: Result<Review>)
      requires Valid()
      modifies repository
      ensures Valid()
      ensures id !in old(repository.reviews) ==>
        r == Err(ClientError(NOT_FOUND)) && unchanged(repository)
      ensures id in old(repository.reviews) ==>
        var before := old(repository.reviews)[id];
        && r == Ok(before.(responseList := RemoveMatching(before.responseList, response.id)))
        && repository.reviews == old(repository.reviews)[id := r.value]
        && repository.order == old(repository.order)
    {
      var found := GetReviewById(id);
      if found.Err? {
        return Err(found.failure);
      }
      var updated := found.value.(responseList := RemoveMatching(found.value.responseList, response.id));
      var saved := repository.Save(updated);
      r := Ok(saved);
    }

    /** `deleteReview`: NOT_FOUND leaves the store alone; otherwise exactly
        this id is removed. */
    method DeleteReview(id: Uuid) returns (r: Result<()>)
      requires Valid()
      modifies repository
      ensures Valid()
      ensures id !in old(repository.reviews) ==>
        r == Err(ClientError(NOT_FOUND)) && unchanged(repository)
      ensures id in old(repository.reviews) ==>
        && r == Ok(())
        && repository.reviews == old(repository.reviews) - {id}
        && repository.order == Without(old(repository.order), id)
    {
      var found := GetReviewById(id);
      if found.Err? {
        return Err(found.failure);
      }
      repository.Delete(found.value);
      r := Ok(());
    }

    /** `getDetailedReviewById`: the review, then the offer, sender and user
        lookups in that order; any throw is propagated, and a null from any
        lookup makes the final `!!` fail. */
    function GetDetailedReviewById<U, O>(
      id: Uuid, token: string,
      offerById: (Uuid, string) -> Result<Option<O>>,
      userById: (Uuid, string) -> Result<Option<U>>): (r: Result<DetailedReview<U, O>>)
      reads this, repository
      requires Valid()
      ensures id !in repository.reviews ==> r == Err(ClientError(NOT_FOUND))
      ensures r.Ok? <==>
        && id in repository.reviews
        && Found(offerById(repository.reviews[id].offerId, token))
        && Found(userById(repository.reviews[id].senderId, token))
        && Found(userById(repository.reviews[id].userId, token))
      ensures r.Ok? ==>
        var review := repository.reviews[id];
        && r.value.id == id
        && r.value.grade == review.grade
        && r.value.message == review.message
        && r.value.responseList == review.responseList
        && r.value.date == review.date
        && r.value.offer == offerById(review.offerId, token).value.value
        && r.value.sender == userById(review.senderId, token).value.value
        && r.value.user == userById(review.userId, token).value.value
      ensures id in repository.reviews ==>
        var review := repository.reviews[id];
        var offer := offerById(review.offerId, token);
        var sender := userById(review.senderId, token);
        var user := userById(review.userId, token);
        && (offer.Err? ==> r == Err(offer.failure))
        && (offer.Ok? && sender.Err? ==> r == Err(sender.failure))
        && (offer.Ok? && sender.Ok? && user.Err? ==> r == Err(user.failure))
        && (offer.Ok? && sender.Ok? && user.Ok? && !(offer.value.Some? && sender.value.Some? && user.value.Some?) ==>
              r == Err(NullDereference))
    {
      var review :- GetReviewById(id);
      var offer :- offerById(review.offerId, token);
      var sender :- userById(review.senderId, token);
      var user :- userById(review.userId, token);
      if sender.None? || user.None? || offer.None? then Err(NullDereference)
      else Ok(DetailedReview(review.id, review.grade, review.message, sender.value, user.value,
                             review.responseList, review.date, offer.value))
    }

    /** The detail view of each review of `rs`, in order, stopping at the
        first failure. */
    function DetailAll<U, O>(
      rs: seq<Review>, token: string,
      offerById: (Uuid, string) -> Result<Option<O>>,
      userById: (Uuid, string) -> Result<Option<U>>): (r: Result<seq<DetailedReview<U, O>>>)
      reads this, repository
      requires Valid()
      ensures r.Ok? ==> |r.value| == |rs|
      ensures r.Ok? ==> forall i :: 0 <= i < |rs| ==> r.value[i].id == rs[i].id
      decreases |rs|
    {
      if rs == [] then Ok([])
      else
        var init :- DetailAll(rs[..|rs| - 1], token, offerById, userById);
        var last :- GetDetailedReviewById(rs[|rs| - 1].id, token, offerById, userById);
        Ok(init + [last])
    }

    /** The listing succeeds exactly when every detail view does, and then
        holds them one per review, in order. */
    lemma {:induction false} DetailAllOk<U, O>(
      rs: seq<Review>, token: string,
      offerById: (Uuid, string) -> Result<Option<O>>,
      userById: (Uuid, string) -> Result<Option<U>>)
      requires Valid()
      ensures DetailAll(rs, token, offerById, userById).Ok? <==>
        forall i :: 0 <= i < |rs| ==> GetDetailedReviewById(rs[i].id, token, offerById, userById).Ok?
      ensures DetailAll(rs, token, offerById, userById).Ok? ==>
        var ds := DetailAll(rs, token, offerById, userById).value;
        && |ds| == |rs|
        && forall i :: 0 <= i < |rs| ==> ds[i] == GetDetailedReviewById(rs[i].id, token, offerById, userById).value
      decreases |rs|
    {
      if rs != [] {
        var init := rs[..|rs| - 1];
        DetailAllOk(init, token, offerById, userById);
        forall i | 0 <= i < |init| ensures init[i] == rs[i] { }
      }
    }

    /** A failed listing reports the failure of the first review whose
        detail view fails; every earlier one succeeded. */
    lemma {:induction false} DetailAllFirstFailure<U, O>(
      rs: seq<Review>, token: string,
      offerById: (Uuid, string) -> Result<Option<O>>,
      userById: (Uuid, string) -> Result<Option<U>>)
      requires Valid()
      requires DetailAll(rs, token, offerById, userById).Err?
      ensures exists k ::
        && 0 <= k < |rs|
        && (forall i :: 0 <= i < k ==> GetDetailedReviewById(rs[i].id, token, offerById, userById).Ok?)
        && GetDetailedReviewById(rs[k].id, token, offerById, userById).Err?
        && DetailAll(rs, token, offerById, userById).failure
           == GetDetailedReviewById(rs[k].id, token, offerById, userById).failure
      decreases |rs|
    {
      var init := rs[..|rs| - 1];
      forall i | 0 <= i < |init| ensures init[i] == rs[i] { }
      if DetailAll(init, token, offerById, userById).Err? {
        DetailAllFirstFailure(init, token, offerById, userById);
      } else {
        DetailAllOk(init, token, offerById, userById);
        var k := |rs| - 1;
        assert GetDetailedReviewById(rs[k].id, token, offerById, userById).Err?;
      }
    }

    /** Once a prefix of the listing fails, the whole listing fails the same way. */
    lemma {:induction false} DetailAllPrefixFailure<U, O>(
      rs: seq<Review>, n: nat, token: string,
      offerById: (Uuid, string) -> Result<Option<O>>,
      userById: (Uuid, string) -> Result<Option<U>>)
      requires Valid()
      requires n <= |rs|
      requires DetailAll(rs[..n], token, offerById, userById).Err?
      ensures DetailAll(rs, token, offerById, userById) == DetailAll(rs[..n], token, offerById, userById)
      decreases |rs| - n
    {
      if n < |rs| {
        var init := rs[..|rs| - 1];
        assert init[..n] == rs[..n];
        DetailAllPrefixFailure(init, n, token, offerById, userById);
      } else {
        assert rs[..n] == rs;
      }
    }

    /** One more iteration of the listing loop: the next detail view is
        appended, or its failure becomes the listing's. */
    lemma DetailAllStep<U, O>(
      rs: seq<Review>, i: nat, done: seq<DetailedReview<U, O>>, token: string,
      offerById: (Uuid, string) -> Result<Option<O>>,
      userById: (Uuid, string) -> Result<Option<U>>)
      requires Valid()
      requires i < |rs|
      requires DetailAll(rs[..i], token, offerById, userById) == Ok(done)
      ensures DetailAll(rs[..i + 1], token, offerById, userById) ==
        match GetDetailedReviewById(rs[i].id, token, offerById, userById)
        case Ok(d) => Ok(done + [d])
        case Err(f) => Err(f)
    {
      assert rs[..i + 1][..i] == rs[..i];
    }

    /** For stored reviews, a successful listing carries each review's own
        fields, one entry per review, in order. */
    lemma DetailAllFields<U, O>(
      rs: seq<Review>, token: string,
      offerById: (Uuid, string) -> Result<Option<O>>,
      userById: (Uuid, string) -> Result<Option<U>>)
      requires Valid()
      requires forall x :: x in rs ==> x.id in repository.reviews && repository.reviews[x.id] == x
      ensures DetailAll(rs, token, offerById, userById).Ok? ==>
        var ds := DetailAll(rs, token, offerById, userById).value;
        && |ds| == |rs|
        && forall i :: 0 <= i < |rs| ==>
             && ds[i].id == rs[i].id
             && ds[i].grade == rs[i].grade
             && ds[i].message == rs[i].message
             && ds[i].responseList == rs[i].responseList
             && ds[i].date == rs[i].date
    {
      DetailAllOk(rs, token, offerById, userById);
      forall i | 0 <= i < |rs| ensures rs[i].id in repository.reviews && repository.reviews[rs[i].id] == rs[i] {
        assert rs[i] in rs;
      }
    }

    /** `getReviewListBySenderId`: one detail view per review by `senderId`,
        in repository order; the first failure aborts the whole listing. */
    method GetReviewListBySenderId<U, O>(
      senderId: Uuid, token: string,
      offerById: (Uuid, string) -> Result<Option<O>>,
      userById: (Uuid, string) -> Result<Option<U>>) returns (r: Result<seq<DetailedReview<U, O>>>)
      requires Valid()
      ensures r == DetailAll(repository.FindBySenderId(senderId), token, offerById, userById)
      ensures r.Ok? ==>
        var rs := repository.FindBySenderId(senderId);
        && |r.value| == |rs|
        && forall i :: 0 <= i < |rs| ==>
             && r.value[i].id == rs[i].id
             && r.value[i].grade == rs[i].grade
             && r.value[i].message == rs[i].message
             && r.value[i].responseList == rs[i].responseList
             && r.value[i].date == rs[i].date
    {
      var bySender := repository.FindBySenderId(senderId);
      var reviewList: seq<DetailedReview<U, O>> := [];
      var i := 0;
      while i < |bySender|
        invariant 0 <= i <= |bySender|
        invariant DetailAll(bySender[..i], token, offerById, userById) == Ok(reviewList)
      {
        var detailed := GetDetailedReviewById(bySender[i].id, token, offerById, userById);
        DetailAllStep(bySender, i, reviewList, token, offerById, userById);
        if detailed.Err? {
          DetailAllPrefixFailure(bySender, i + 1, token, offerById, userById);
          return Err(detailed.failure);
        }
        reviewList := reviewList + [detailed.value];
        i := i + 1;
      }
      assert bySender[..i] == bySender;
      r := Ok(reviewList);
      DetailAllFields(bySender, token, offerById, userById);
    }
  }
}
