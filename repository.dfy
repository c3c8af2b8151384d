/** The document store behind `ReviewRepository`: reviews keyed by id, kept in
    an order that `findAll` and `findBySenderId` report them in. */
module Repository {
  import opened Http
  import opened Model

  predicate Distinct(ks: seq<Uuid>)
  {
    forall i, j :: 0 <= i < j < |ks| ==> ks[i] != ks[j]
  }

  /** `ks` with every occurrence of `k` removed, the rest in order. */
  function Without(ks: seq<Uuid>, k: Uuid): (r: seq<Uuid>)
    ensures forall x :: x in r <==> x in ks && x != k
    ensures Distinct(ks) ==> Distinct(r)
  {
    if ks == [] then []
    else
      var rest := Without(ks[1..], k);
      assert Distinct(ks) ==> Distinct(ks[1..]) && ks[0] !in rest by {
        if Distinct(ks) {
          forall i, j | 0 <= i < j < |ks[1..]| ensures ks[1..][i] != ks[1..][j] {
            assert ks[1..][i] == ks[i + 1] && ks[1..][j] == ks[j + 1];
          }
          assert ks[0] !in ks[1..];
        }
      }
      (if ks[0] == k then [] else [ks[0]]) + rest
  }

  /** The reviews of `rs` whose sender is `senderId`, in the order of `rs`. */
  function BySender(rs: seq<Review>, senderId: Uuid): (r: seq<Review>)
    ensures forall x :: x in r <==> x in rs && x.senderId == senderId
    ensures DistinctIds(rs) ==> DistinctIds(r)
  {
    if rs == [] then []
    else
      var rest := BySender(rs[1..], senderId);
      assert DistinctIds(rs) ==> DistinctIds(rs[1..]) && forall x :: x in rest ==> x.id != rs[0].id by {
        if DistinctIds(rs) {
          forall i, j | 0 <= i < j < |rs[1..]| ensures rs[1..][i].id != rs[1..][j].id {
            assert rs[1..][i] == rs[i + 1] && rs[1..][j] == rs[j + 1];
          }
          forall x | x in rest ensures x.id != rs[0].id {
            var j :| 0 <= j < |rs[1..]| && rs[1..][j] == x;
            assert rs[j + 1] == x;
          }
        }
      }
      (if rs[0].senderId == senderId then [rs[0]] else []) + rest
  }

  /** No two reviews of `rs` share an id. */
  predicate DistinctIds(rs: seq<Review>)
  {
    forall i, j :: 0 <= i < j < |rs| ==> rs[i].id != rs[j].id
  }

  class ReviewRepository {
    var reviews: map<Uuid, Review>
    var order: seq<Uuid>

    /** Every review is stored under its own id, and `order` lists each stored id once. */
    ghost predicate Valid()
      reads this
    {
      && (forall k :: k in reviews ==> reviews[k].id == k)
      && (forall k :: k in order <==> k in reviews)
      && Distinct(order)
    }

    constructor ()
      ensures Valid() && reviews == map[] && order == []
    {
      reviews := map[];
      order := [];
    }

    /** The reviews stored under the ids `ks`, in that order. */
    function ReviewsAt(ks: seq<Uuid>): (rs: seq<Review>)
      reads this
      requires forall k :: k in ks ==> k in reviews
      ensures |rs| == |ks|
      ensures forall i :: 0 <= i < |ks| ==> rs[i] == reviews[ks[i]]
    {
      if ks == [] then [] else [reviews[ks[0]]] + ReviewsAt(ks[1..])
    }

    /** `findAll`: every stored review, in repository order. */
    function FindAll(): (rs: seq<Review>)
      reads this
      requires Valid()
      ensures |rs| == |order|
      ensures forall i :: 0 <= i < |order| ==> rs[i] == reviews[order[i]] && rs[i].id == order[i]
    {
      ReviewsAt(order)
    }

    /** `findById`: the review stored under `id`, if any. */
    function FindById(id: Uuid): (r: Option<Review>)
      reads this
      requires Valid()
      ensures r.Some? <==> id in reviews
      ensures r.Some? ==> r.value == reviews[id] && r.value.id == id
    {
      if id in reviews then Some(reviews[id]) else None
    }

    /** `findBySenderId`: exactly the stored reviews written by `senderId`. */
    function FindBySenderId(senderId: Uuid): (rs: seq<Review>)
      reads this
      requires Valid()
      ensures forall r :: r in rs ==> r.senderId == senderId && r.id in reviews && reviews[r.id] == r
      ensures forall k :: k in reviews && reviews[k].senderId == senderId ==> reviews[k] in rs
      ensures DistinctIds(rs)
    {
      var all := FindAll();
      assert DistinctIds(all) by {
        forall i, j | 0 <= i < j < |all| ensures all[i].id != all[j].id {
          assert all[i].id == order[i] && all[j].id == order[j];
        }
      }
      forall k | k in reviews && reviews[k].senderId == senderId
        ensures reviews[k] in all
      {
        var i :| 0 <= i < |order| && order[i] == k;
        assert all[i] == reviews[k];
      }
      BySender(all, senderId)
    }

    /** `save`: insert or replace the document with the review's id. */
    method Save(review: Review) returns (saved: Review)
      requires Valid()
      modifies this
      ensures Valid()
      ensures saved == review
      ensures reviews == old(reviews)[review.id := review]
      ensures order == if review.id in old(reviews) then old(order) else old(order) + [review.id]
    {
      if review.id !in reviews {
        order := order + [review.id];
      }
      reviews := reviews[review.id := review];
      saved := review;
    }

    /** `delete`: remove the document with the review's id. */
    method Delete(review: Review)
      requires Valid()
      modifies this
      ensures Valid()
      ensures reviews == old(reviews) - {review.id}
      ensures order == Without(old(order), review.id)
    {
      reviews := reviews - {review.id};
      order := Without(order, review.id);
    }
  }
}
