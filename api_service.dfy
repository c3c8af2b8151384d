/** The outgoing authenticated call used to fetch users and offers: building
    the Authorization header from the caller's token, and turning the outcome
    of the HTTP exchange into a returned body or a thrown status. */
module Api {
  import opened Http

  const BEARER_PREFIX: string := "Bearer "

  datatype HttpMethod = GET | POST | PUT | PATCH | DELETE

  /** The request headers; `authorization` is the Authorization header's value. */
  datatype Headers = Headers(authorization: string)

  /** What `RestTemplate.exchange` can do: answer with a status and a
      possibly-null body, throw an `HttpClientErrorException` (a 4xx), or
      throw anything else (a 5xx, an I/O or decoding error). */
  datatype Exchange<T> =
    | Responded(status: int, body: Option<T>)
    | ClientErrorThrown(status: int)
    | OtherFailure

  /** `pat` occurs somewhere in `s`. */
  predicate Occurs(pat: string, s: string)
  {
    exists i :: 0 <= i <= |s| && pat <= s[i..]
  }

  /** Kotlin's `s.replace(pat, "")`: scan left to right and drop every
      non-overlapping occurrence of `pat`, without rescanning the result. */
  function RemoveAll(s: string, pat: string): (r: string)
    requires pat != []
    ensures |r| <= |s|
    decreases |s|
  {
    if s == [] then []
    else if pat <= s then RemoveAll(s[|pat|..], pat)
    else [s[0]] + RemoveAll(s[1..], pat)
  }

  /** `createHeaders`: a missing token, or one that does not start with
      "Bearer ", is rejected with UNAUTHORIZED; otherwise the bearer
      credential is the token with every "Bearer " removed, and
      `setBearerAuth` puts "Bearer " back in front of it. */
  function CreateHeaders(token: Option<string>): (r: Result<Headers>)
    ensures r.Ok? <==> token.Some? && BEARER_PREFIX <= token.value
    ensures r.Err? ==> r.failure == ClientError(UNAUTHORIZED)
    ensures r.Ok? ==> r.value.authorization == BEARER_PREFIX + RemoveAll(token.value, BEARER_PREFIX)
  {
    if token.None? || !(BEARER_PREFIX <= token.value) then Err(ClientError(UNAUTHORIZED))
    else Ok(Headers(BEARER_PREFIX + RemoveAll(token.value, BEARER_PREFIX)))
  }

  /** `makeApiCall`: the headers are built before the exchange (outside its
      try block); an OK answer with a body returns the body, any other answer
      throws its own status, a client error is rethrown unchanged, and every
      other failure becomes INTERNAL_SERVER_ERROR. */
  function MakeApiCall<T>(
    uri: string, verb: HttpMethod, token: string,
    exchange: (string, HttpMethod, Headers) -> Exchange<T>): (r: Result<T>)
    ensures !(BEARER_PREFIX <= token) ==> r == Err(ClientError(UNAUTHORIZED))
    ensures r.Ok? <==>
      && BEARER_PREFIX <= token
      && var outcome := exchange(uri, verb, Headers(BEARER_PREFIX + RemoveAll(token, BEARER_PREFIX)));
         outcome.Responded? && outcome.status == OK && outcome.body.Some?
    ensures r.Err? ==> r.failure.ClientError?
  {
    var headers :- CreateHeaders(Some(token));
    match exchange(uri, verb, headers)
    case Responded(status, body) =>
      if status == OK && body.Some? then Ok(body.value) else Err(ClientError(status))
    case ClientErrorThrown(status) => Err(ClientError(status))
    case OtherFailure => Err(ClientError(INTERNAL_SERVER_ERROR))
  }

  /** With a well-formed token, each exchange outcome maps to the result the
      call returns or the status it throws. */
  lemma MakeApiCallOutcome<T>(
    uri: string, verb: HttpMethod, token: string,
    exchange: (string, HttpMethod, Headers) -> Exchange<T>)
    requires BEARER_PREFIX <= token
    ensures var outcome := exchange(uri, verb, Headers(BEARER_PREFIX + RemoveAll(token, BEARER_PREFIX)));
      var r := MakeApiCall(uri, verb, token, exchange);
      && (outcome.Responded? && outcome.status == OK && outcome.body.Some? ==> r == Ok(outcome.body.value))
      && (outcome.Responded? && (outcome.status != OK || outcome.body.None?) ==>
            r == Err(ClientError(outcome.status)))
      && (outcome.ClientErrorThrown? ==> r == Err(ClientError(outcome.status)))
      && (outcome.OtherFailure? ==> r == Err(ClientError(INTERNAL_SERVER_ERROR)))
  {
  }

  /** A malformed token is rejected before any request is issued: the
      outcome does not depend on what the exchange would have done. */
  lemma BadTokenIssuesNoRequest<T>(
    uri: string, verb: HttpMethod, token: string,
    exchange1: (string, HttpMethod, Headers) -> Exchange<T>,
    exchange2: (string, HttpMethod, Headers) -> Exchange<T>)
    requires !(BEARER_PREFIX <= token)
    ensures MakeApiCall(uri, verb, token, exchange1) == MakeApiCall(uri, verb, token, exchange2)
  {
  }

  /** Removing a pattern that does not occur changes nothing. */
  lemma {:induction false} RemoveAllAbsent(s: string, pat: string)
    requires pat != []
    requires !Occurs(pat, s)
    ensures RemoveAll(s, pat) == s
    decreases |s|
  {
    if s != [] {
      assert s[0..] == s;
      assert !(pat <= s);
      forall i | 0 <= i <= |s[1..]| ensures !(pat <= s[1..][i..]) {
        assert s[1..][i..] == s[i + 1..];
      }
      RemoveAllAbsent(s[1..], pat);
    }
  }

  /** The scan keeps text up to the first occurrence, drops that occurrence,
      and carries on after it: `a` holds no occurrence starting inside it. */
  lemma {:induction false} RemoveAllFirstOccurrence(a: string, pat: string, b: string)
    requires pat != []
    requires forall i :: 0 <= i < |a| ==> !(pat <= (a + pat + b)[i..])
    ensures RemoveAll(a + pat + b, pat) == a + RemoveAll(b, pat)
    decreases |a|
  {
    var s := a + pat + b;
    if a == [] {
      assert s == pat + b;
      assert s[|pat|..] == b;
    } else {
      assert s[0..] == s;
      assert !(pat <= s);
      assert s[1..] == a[1..] + pat + b;
      forall i | 0 <= i < |a[1..]| ensures !(pat <= (a[1..] + pat + b)[i..]) {
        assert (a[1..] + pat + b)[i..] == s[i + 1..];
      }
      RemoveAllFirstOccurrence(a[1..], pat, b);
      assert [a[0]] + a[1..] == a;
    }
  }

  /** A token made of the prefix and a credential without any "Bearer " in
      it is passed on unchanged: the header carries exactly that credential. */
  lemma BearerRoundTrip(credential: string)
    requires !Occurs(BEARER_PREFIX, credential)
    ensures CreateHeaders(Some(BEARER_PREFIX + credential)) == Ok(Headers(BEARER_PREFIX + credential))
  {
    var token := BEARER_PREFIX + credential;
    assert token[|BEARER_PREFIX|..] == credential;
    RemoveAllAbsent(credential, BEARER_PREFIX);
  }

  /** The stripping is `replace`, not a prefix cut: an occurrence inside the
      credential is removed as well. */
  lemma ReplaceRemovesInnerOccurrence()
    ensures CreateHeaders(Some("Bearer abBearer cd")) == Ok(Headers("Bearer abcd"))
  {
    var p := BEARER_PREFIX;
    assert p[0] == 'B';
    assert RemoveAll("d", p) == "d" by {
      assert "d"[0] != p[0];
      assert "d"[1..] == [];
    }
    assert RemoveAll("cd", p) == "cd" by {
      assert "cd"[0] != p[0];
      assert "cd"[1..] == "d";
    }
    assert RemoveAll("Bearer cd", p) == "cd" by {
      assert p <= "Bearer cd";
      assert "Bearer cd"[|p|..] == "cd";
    }
    assert RemoveAll("bBearer cd", p) == "bcd" by {
      assert "bBearer cd"[0] != p[0];
      assert "bBearer cd"[1..] == "Bearer cd";
    }
    assert RemoveAll("abBearer cd", p) == "abcd" by {
      assert "abBearer cd"[0] != p[0];
      assert "abBearer cd"[1..] == "bBearer cd";
    }
    assert RemoveAll("Bearer abBearer cd", p) == "abcd" by {
      assert p <= "Bearer abBearer cd";
      assert "Bearer abBearer cd"[|p|..] == "abBearer cd";
    }
    assert p + "abcd" == "Bearer abcd";
  }
}
