# Review service — a Dafny model

This project models the core of a review-management microservice written in
Kotlin with Spring. Users leave reviews (a grade from 0 to 5, a message, a
sender, a reviewed user and an offer). Each review holds an ordered list of
responses. The model covers four parts:

- **The review service** (`ReviewService.kt`): grade validation, and the
  create, read, update and delete operations on reviews.
- **The response-list edits**: append a response, replace the responses with a
  given id, and remove the responses with a given id.
- **The detail view and the per-sender listing**: a review joined with its
  offer, its sender and its reviewed user, fetched from two remote services.
- **Two pieces of pure logic beside the service**:
  - the outgoing authenticated call (`ApiService.kt`): checking and stripping
    the bearer token, and mapping the HTTP outcome to a body or a status;
  - the conversion of a decoded JWT into granted authorities
    (`JwtAuthConverter.kt`).

Layout, one module per file:

| file | module | models |
|---|---|---|
| `http.dfy` | `Http` | status codes, the `Failure` a call can throw, `Result` and `Option` |
| `model.dfy` | `Model` | `Review` (the eight-field shape the service builds), `Response`, the request bodies, `DetailedReview` |
| `responses.dfy` | `Responses` | the `map` and `filter` the service applies to a response list |
| `repository.dfy` | `Repository` | class `ReviewRepository`: a `map` from id to review plus the ordered list of stored ids |
| `review_service.dfy` | `Service` | class `ReviewService`, one member per service operation |
| `api_service.dfy` | `Api` | `createHeaders` and `makeApiCall` |
| `jwt_auth_converter.dfy` | `JwtAuth` | `extractResourceRoles`, `getPrincipleClaimName`, `convert` |

State is modelled as follows:

- The repository is a class whose methods reassign its fields. The state-changing
  service methods say exactly what the new store is, in terms of the old one.
- The object invariant `Valid()` requires that every review is stored under its
  own id, and that the ordered id list holds each stored id exactly once.
- Fresh ids and timestamps are parameters of the operations that create things.
  The code does not check that an id is fresh, so the model does not either: a
  create with an id already in use replaces that review, as the upsert `save`
  would.
- The user and offer lookups are function parameters. Each one either throws (an
  `Err`), returns null (`Ok(None)`) or returns a payload. The user and offer
  payloads are type parameters, so they stay opaque.

Points where the code's behaviour is easy to misread:

- `modifyResponseOfReview` replaces every response whose id matches, not only
  the first one.
- `updateReview` checks the grade before it looks up the review. An invalid
  grade therefore gives BAD_REQUEST even for an unknown id.
- The detail view looks up the offer first, then the sender, then the reviewed
  user. A null from any lookup fails at the final `!!`, which throws a null
  dereference rather than a status.
- `makeApiCall` accepts only status 200 with a non-null body. Any other answer
  throws that answer's own status, including another 2xx status, and including
  200 when the body is null.
- The role conversion checks only that `roles` is a collection. A null role
  gets through the lambda's cast to String and becomes the authority
  "ROLE_null". A number or boolean role makes the cast throw.

## Model

| member | source | states |
|---|---|---|
| `Service.ValidateGrade` | src/main/kotlin/fr/polytech/service/ReviewService.kt:194-199 | succeeds exactly when 0 ≤ grade ≤ 5; otherwise fails with BAD_REQUEST |
| `Service.ReviewService.GetReviews` | src/main/kotlin/fr/polytech/service/ReviewService.kt:36-39 | returns, in key order, the review stored under each stored id, so every stored review appears once |
| `Service.ReviewService.GetReviewById` | src/main/kotlin/fr/polytech/service/ReviewService.kt:48-52 | succeeds exactly when the id is stored, and then returns the review stored under it, whose id is that id; otherwise fails with NOT_FOUND |
| `Service.ReviewService.CreateReview` | src/main/kotlin/fr/polytech/service/ReviewService.kt:60-74 | an out-of-range grade fails with BAD_REQUEST and leaves the store unchanged; otherwise the stored and returned review copies grade, message, senderId, userId and offerId from the request, has the fresh id and the current date, and an empty response list; no other review changes |
| `Service.ReviewService.UpdateReview` | src/main/kotlin/fr/polytech/service/ReviewService.kt:84-93 | the grade is checked first (BAD_REQUEST even for an unknown id), then the lookup (NOT_FOUND); both leave the store unchanged; on success only grade and message change, in that review only, and the key order is kept |
| `Service.ReviewService.AddResponseToReview` | src/main/kotlin/fr/polytech/service/ReviewService.kt:103-116 | NOT_FOUND leaves the store unchanged; otherwise the list becomes exactly one longer, the earlier responses are kept in order, the last one carries the fresh id, the date, and the caller's message and senderId, and no other field or review changes |
| `Service.ReviewService.ModifyResponseOfReview` | src/main/kotlin/fr/polytech/service/ReviewService.kt:126-139 | NOT_FOUND leaves the store unchanged; otherwise the review's list becomes `ReplaceMatching` of the old list, and no other field or review changes |
| `Service.ReviewService.DeleteResponseOfReview` | src/main/kotlin/fr/polytech/service/ReviewService.kt:162-171 | NOT_FOUND leaves the store unchanged; otherwise the list becomes `RemoveMatching` of the old list by the supplied response's id alone, and no other field or review changes |
| `Service.ReviewService.DeleteReview` | src/main/kotlin/fr/polytech/service/ReviewService.kt:147-152 | an absent id fails with NOT_FOUND and deletes nothing; a present id is removed from the map and from the key order, and every other review is kept |
| `Service.ReviewService.GetDetailedReviewById` | src/main/kotlin/fr/polytech/service/ReviewService.kt:207-232 | an absent review fails with NOT_FOUND; succeeds exactly when the review exists and all three lookups (offer, sender, user) return a value; the result carries the review's id, grade, message, response list and date, plus the three payloads; on failure the offer lookup's error wins, then the sender's, then the user's (first throw in call order), and a null from any lookup that did not throw gives a null dereference |
| `Service.ReviewService.GetReviewListBySenderId` | src/main/kotlin/fr/polytech/service/ReviewService.kt:240-251 | the loop's result equals `DetailAll` over the sender's reviews in repository order; on success it has one entry per such review, with that review's id, grade, message, responses and date |
| `Service.ReviewService.DetailAll` | src/main/kotlin/fr/polytech/service/ReviewService.kt:243-250 | the reference for the loop: a successful listing has one entry per review, carrying that review's id, in order |
| `Service.ReviewService.DetailAllStep` | src/main/kotlin/fr/polytech/service/ReviewService.kt:245-248 | one iteration: after a successful prefix, the next review's detail view is appended, or its failure becomes the listing's |
| `Service.ReviewService.DetailAllFields` | src/main/kotlin/fr/polytech/service/ReviewService.kt:243-250 | for stored reviews, entry i of a successful listing carries review i's id, grade, message, responses and date |
| `Service.ReviewService.DetailAllOk` | src/main/kotlin/fr/polytech/service/ReviewService.kt:243-250 | the listing succeeds exactly when every review's detail view succeeds, and then has the same length, with the i-th entry being the i-th review's detail view |
| `Service.ReviewService.DetailAllFirstFailure` | src/main/kotlin/fr/polytech/service/ReviewService.kt:245-248 | a failed listing reports the failure of the first review whose detail view fails, and every earlier review's detail view succeeds |
| `Service.ReviewService.DetailAllPrefixFailure` | src/main/kotlin/fr/polytech/service/ReviewService.kt:245-248 | once a prefix of the loop has failed, the whole listing fails with the same error (abort on first failure) |
| `Responses.ReplaceMatching` | src/main/kotlin/fr/polytech/service/ReviewService.kt:131-137 | keeps the length; every element whose id matches becomes the supplied response, and every other element keeps its value and position |
| `Responses.ReplaceMatchingKeepsIds` | src/main/kotlin/fr/polytech/service/ReviewService.kt:131-137 | the sequence of response ids is unchanged by a replacement |
| `Responses.ReplaceMatchingNoMatch` | src/main/kotlin/fr/polytech/service/ReviewService.kt:131-137 | when no response has the supplied id, the list is unchanged |
| `Responses.ReplaceMatchingIdempotent` | src/main/kotlin/fr/polytech/service/ReviewService.kt:131-137 | replacing twice with the same response equals replacing once |
| `Responses.RemoveMatching` | src/main/kotlin/fr/polytech/service/ReviewService.kt:167-169 | an element survives exactly when it was in the list and its id differs, so no survivor has the id; the length drops by the number of elements with that id |
| `Responses.RemoveMatchingAppend` | src/main/kotlin/fr/polytech/service/ReviewService.kt:167-169 | removal distributes over concatenation, so the survivors keep their relative order |
| `Responses.RemoveMatchingNoMatch` | src/main/kotlin/fr/polytech/service/ReviewService.kt:167-169 | when no response has the id, nothing is removed |
| `Responses.RemoveMatchingIdempotent` | src/main/kotlin/fr/polytech/service/ReviewService.kt:167-169 | removing twice equals removing once |
| `Repository.ReviewRepository.FindAll` | src/main/kotlin/fr/polytech/repository/ReviewRepository.kt:7 | one review per stored id, in key order, each carrying its own key as id |
| `Repository.ReviewRepository.FindById` | src/main/kotlin/fr/polytech/repository/ReviewRepository.kt:7 | present exactly when the id is stored, and then the review stored under it |
| `Repository.ReviewRepository.FindBySenderId` | src/main/kotlin/fr/polytech/repository/ReviewRepository.kt:8 | every returned review is stored and was written by the sender; every stored review by the sender is returned; no review is returned twice |
| `Repository.ReviewRepository.Save` | src/main/kotlin/fr/polytech/repository/ReviewRepository.kt:7 | upsert under the review's id (a new id goes at the end of the key order), returns the review, and keeps the store invariant |
| `Repository.ReviewRepository.Delete` | src/main/kotlin/fr/polytech/repository/ReviewRepository.kt:7 | removes exactly the review's id from the map and the key order, and keeps the store invariant |
| `Api.CreateHeaders` | src/main/kotlin/fr/polytech/service/ApiService.kt:64-76 | succeeds exactly when the token is present and starts with "Bearer "; otherwise fails with UNAUTHORIZED; the Authorization value is "Bearer " followed by the token with every "Bearer " removed |
| `Api.RemoveAll` | src/main/kotlin/fr/polytech/service/ApiService.kt:73 | `replace("Bearer ", "")` never lengthens the token |
| `Api.RemoveAllFirstOccurrence` | src/main/kotlin/fr/polytech/service/ApiService.kt:73 | for any text: the part before the first occurrence is kept, that occurrence is dropped, and the scan carries on after it without rescanning |
| `Api.RemoveAllAbsent` | src/main/kotlin/fr/polytech/service/ApiService.kt:73 | removing a pattern that does not occur leaves the text unchanged |
| `Api.BearerRoundTrip` | src/main/kotlin/fr/polytech/service/ApiService.kt:72-73 | "Bearer " + a credential with no "Bearer " inside gives a header carrying exactly that credential |
| `Api.ReplaceRemovesInnerOccurrence` | src/main/kotlin/fr/polytech/service/ApiService.kt:73 | the stripping is `replace`, not a prefix cut: "Bearer abBearer cd" gives the credential "abcd" |
| `Api.MakeApiCall` | src/main/kotlin/fr/polytech/service/ApiService.kt:27-55 | a token without the prefix fails with UNAUTHORIZED; succeeds exactly when the exchange, given the built headers, answers 200 with a body; every failure is a status-carrying client error |
| `Api.MakeApiCallOutcome` | src/main/kotlin/fr/polytech/service/ApiService.kt:35-53 | with a good token: 200 with a body returns that body; any other answer fails with its own status; a client error is rethrown with its status; any other failure gives INTERNAL_SERVER_ERROR |
| `Api.BadTokenIssuesNoRequest` | src/main/kotlin/fr/polytech/service/ApiService.kt:28-35 | with a bad token the result does not depend on the exchange, because no request is issued |
| `JwtAuth.ExtractResourceRoles` | src/main/kotlin/fr/polytech/config/JwtAuthConverter.kt:51-57 | no `resource_access` claim, a missing or non-object resource entry, or a missing or non-array `roles` gives the empty set; a non-object `resource_access` fails; a `roles` array gives exactly its role authorities, which fail on a role that is neither a string nor null |
| `JwtAuth.RoleAuthorities` | src/main/kotlin/fr/polytech/config/JwtAuthConverter.kt:56 | a role that is neither a string nor null makes the conversion fail; otherwise the roles yield at most one authority each |
| `JwtAuth.RoleAuthoritiesDefined` | src/main/kotlin/fr/polytech/config/JwtAuthConverter.kt:56 | the roles convert exactly when each is a string or null |
| `JwtAuth.RoleAuthoritiesMembers` | src/main/kotlin/fr/polytech/config/JwtAuthConverter.kt:56 | the roles convert exactly when each is a string or null; then an authority is in the result exactly when it is "ROLE_" + some role's rendering (its text, or "null" for a null role) |
| `JwtAuth.MissingRolesGiveNothing` | src/main/kotlin/fr/polytech/config/JwtAuthConverter.kt:54-56 | in any token, a resource entry without a `roles` array grants no authority |
| `JwtAuth.RolesArePrefixed` | src/main/kotlin/fr/polytech/config/JwtAuthConverter.kt:52-56 | in any token whose resource entry has a `roles` array of strings, the authorities are exactly "ROLE_" + r for those roles r |
| `JwtAuth.RolePrefixInjective` | src/main/kotlin/fr/polytech/config/JwtAuthConverter.kt:56 | distinct roles give distinct authorities |
| `JwtAuth.RoleAuthoritiesSnoc` | src/main/kotlin/fr/polytech/config/JwtAuthConverter.kt:56 | one more role adds exactly its own authority ("ROLE_null" for a null role), or makes the conversion fail if it is neither a string nor null |
| `JwtAuth.DuplicateRolesCollapse` | src/main/kotlin/fr/polytech/config/JwtAuthConverter.kt:56 | repeating a listed role does not change the result |
| `JwtAuth.PrincipleClaimName` | src/main/kotlin/fr/polytech/config/JwtAuthConverter.kt:41-43 | absent exactly when the configured claim is absent; a string claim is returned as it is |
| `JwtAuth.Convert` | src/main/kotlin/fr/polytech/config/JwtAuthConverter.kt:25-33 | defined exactly when role extraction is; an authority is granted exactly when the default converter or the resource roles grant it; the name is the principal claim, and the token is kept |
| `JwtAuth.NoResourceAccessKeepsDefaults` | src/main/kotlin/fr/polytech/config/JwtAuthConverter.kt:26 | without `resource_access`, the authorities are exactly the default converter's, or none when it yields null |

## Left out

- `checkUser` (ReviewService.kt:179-187) is not modelled. It decodes the token with an external JWT library. It also indexes `split(" ")[1]`, which throws on a token without a space.
- The HTTP controller, the security configuration and the role annotation are not part of this model. They are framework routing, status mapping and declarative access rules.
- `UserService` and `OfferService` are not modelled. They build `base + "/" + id` from an environment variable and call `makeApiCall`. The detail view takes them as lookup parameters.
- `RestTemplate.exchange`, the MongoDB engine behind the repository, and logging are I/O. The exchange is a parameter that returns an `Exchange` outcome.
- The repository's order is insertion order. The document store does not guarantee any order for `findAll` or `findBySenderId`.
- Fetching a review returns a copy. The code assigns that copy's fields in place and then saves it. The model writes this as a datatype update followed by `Save`, so no aliasing is lost.
- `Failure` carries only the status code. The message text of an exception, such as the one for an invalid grade, is not modelled.
- Grades are unbounded integers. The range check gives the same answer for every 32-bit `Int`.
- The user and offer payloads are opaque type parameters. Their fields, including the floating-point salary and hours of an offer, are not modelled.
- `HttpMethod` is passed to the exchange unchanged. The URI is likewise an opaque parameter.
- Read-modify-write races between concurrent `save` calls are not modelled. The model is sequential.
- `JwtAuth.Convert`: authorities are modelled as a set. The source concatenates the default converter's collection and the role set into a list, so duplicates across the two parts, and their order, are not modelled.
- `JwtAuth.PrincipleClaimName`: the string conversion of a non-string claim is a parameter (`asString`). That conversion belongs to the JWT library.
- `JwtAuth.ExtractResourceRoles`: the JWT library's `getClaimAsMap` throws on a `resource_access` claim that is not a JSON object. The model reports this as `None`, the same as a role that is neither a string nor null. JSON numbers and booleans are one kind (`Scalar`). A top-level `resource_access` or principal claim whose value is JSON null is treated like any other non-object, non-string value; how the JWT library handles such a claim is not part of this model.
- The default scope converter (`JwtGrantedAuthoritiesConverter`) belongs to the library, so it is a parameter.
