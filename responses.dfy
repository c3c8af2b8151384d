/** The list expressions the service applies to a review's response list:
    `map` (replace every response with a given id) and `filter` (drop every
    response with a given id). Appending (`plus`) is plain concatenation. */
module Responses {
  import opened Model

  /** Number of responses in `list` whose id is `id`. */
  function CountWithId(list: seq<Response>, id: Uuid): nat
  {
    if list == [] then 0
    else (if list[0].id == id then 1 else 0) + CountWithId(list[1..], id)
  }

  /** `list.map { r -> if (r.id == response.id) response else r }`:
      every match is replaced in place, every other element is kept. */
  function ReplaceMatching(list: seq<Response>, response: Response): (r: seq<Response>)
    ensures |r| == |list|
    ensures forall i :: 0 <= i < |list| && list[i].id == response.id ==> r[i] == response
    ensures forall i :: 0 <= i < |list| && list[i].id != response.id ==> r[i] == list[i]
  {
    if list == [] then []
    else [if list[0].id == response.id then response else list[0]] + ReplaceMatching(list[1..], response)
  }

  /** `list.filter { r -> r.id != id }`. */
  function RemoveMatching(list: seq<Response>, id: Uuid): (r: seq<Response>)
    ensures forall x :: x in r <==> x in list && x.id != id
    ensures |r| == |list| - CountWithId(list, id)
  {
    if list == [] then []
    else (if list[0].id == id then [] else [list[0]]) + RemoveMatching(list[1..], id)
  }

  /** Replacing keeps the sequence of ids, since a replacement carries the id it matched. */
  lemma ReplaceMatchingKeepsIds(list: seq<Response>, response: Response, i: nat)
    requires i < |list|
    ensures ReplaceMatching(list, response)[i].id == list[i].id
  {
  }

  /** When no response has the supplied id, the list is left as it was. */
  lemma {:induction false} ReplaceMatchingNoMatch(list: seq<Response>, response: Response)
    requires forall i :: 0 <= i < |list| ==> list[i].id != response.id
    ensures ReplaceMatching(list, response) == list
  {
    if list != [] {
      ReplaceMatchingNoMatch(list[1..], response);
    }
  }

  /** Replacing twice with the same response is the same as replacing once. */
  lemma ReplaceMatchingIdempotent(list: seq<Response>, response: Response)
    ensures ReplaceMatching(ReplaceMatching(list, response), response) == ReplaceMatching(list, response)
  {
    var once := ReplaceMatching(list, response);
    var twice := ReplaceMatching(once, response);
    assert |twice| == |once|;
    forall i | 0 <= i < |once| ensures twice[i] == once[i] {
      ReplaceMatchingKeepsIds(list, response, i);
    }
  }

  /** Filtering distributes over concatenation: the survivors keep their relative order. */
  lemma {:induction false} RemoveMatchingAppend(a: seq<Response>, b: seq<Response>, id: Uuid)
    ensures RemoveMatching(a + b, id) == RemoveMatching(a, id) + RemoveMatching(b, id)
  {
    if a == [] {
      assert a + b == b;
    } else {
      assert (a + b)[0] == a[0];
      assert (a + b)[1..] == a[1..] + b;
      RemoveMatchingAppend(a[1..], b, id);
    }
  }

  /** When no response has the id, nothing is removed. */
  lemma {:induction false} RemoveMatchingNoMatch(list: seq<Response>, id: Uuid)
    requires forall i :: 0 <= i < |list| ==> list[i].id != id
    ensures RemoveMatching(list, id) == list
  {
    if list != [] {
      RemoveMatchingNoMatch(list[1..], id);
    }
  }

  /** Removing twice is the same as removing once. */
  lemma RemoveMatchingIdempotent(list: seq<Response>, id: Uuid)
    ensures RemoveMatching(RemoveMatching(list, id), id) == RemoveMatching(list, id)
  {
    var once := RemoveMatching(list, id);
    forall i | 0 <= i < |once| ensures once[i].id != id {
      assert once[i] in once;
    }
    RemoveMatchingNoMatch(once, id);
  }
}
