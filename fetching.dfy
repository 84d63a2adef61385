/**
 * `MediaScraper.fetch_page` (src/myanimelist_scraper/scraper.py): up to
 * `retries` attempts, a rate-limit pause before each, and a `2**attempt`
 * back-off after each failed one (the last included).
 *
 * The transport is a table `answers`: `answers[a]` is what attempt `a`
 * (0-based) of `session.get` + `raise_for_status` yields; attempts past its
 * end fail. Pauses and requests
 * are recorded, in order, as a trace of events instead of being performed.
 */
module Fetching {
  import opened Wrappers

  /** A response body, or a `requests.RequestException` raised by the request or the status check. */
  datatype Attempt = Response(text: string) | RequestError

  datatype Event = Sleep(seconds: nat) | Request(attempt: nat)

  /** What attempt `a` yields. */
  function AnswerAt(answers: seq<Attempt>, a: nat): Attempt {
    if a < |answers| then answers[a] else RequestError
  }

  /** The default `retries` of `fetch_page`, which every caller uses. */
  const DefaultRetries := 3

  function Pow2(n: nat): (p: nat)
    ensures p >= 1
  {
    if n == 0 then 1 else 2 * Pow2(n - 1)
  }

  /** The result and the trace of the attempts numbered `attempt` and on. */
  function FetchFrom(answers: seq<Attempt>, retries: int, rateLimit: nat, attempt: nat)
    : (Option<string>, seq<Event>)
    decreases retries - attempt
  {
    if attempt >= retries then (None, [])
    else
      match AnswerAt(answers, attempt)
      case Response(text) => (Some(text), [Sleep(rateLimit), Request(attempt)])
      case RequestError =>
        var rest := FetchFrom(answers, retries, rateLimit, attempt + 1);
        (rest.0, [Sleep(rateLimit), Request(attempt), Sleep(Pow2(attempt))] + rest.1)
  }

  /** Attempt `a` is the first one that gets a response. */
  predicate FirstSuccess(answers: seq<Attempt>, a: nat) {
    AnswerAt(answers, a).Response? && forall j :: 0 <= j < a ==> AnswerAt(answers, j).RequestError?
  }

  /** `fetch_page(url, retries)`, with the transport's answers given by `answers`. */
  method FetchPage(answers: seq<Attempt>, retries: int, rateLimit: nat)
    returns (content: Option<string>, trace: seq<Event>)
    ensures (content, trace) == FetchFrom(answers, retries, rateLimit, 0)
  {
    trace := [];
    content := None;
    var attempt: nat := 0;
    var done := false;
    assert trace + FetchFrom(answers, retries, rateLimit, 0).1 == FetchFrom(answers, retries, rateLimit, 0).1;
    while attempt < retries && !done
      invariant done ==> (content, trace) == FetchFrom(answers, retries, rateLimit, 0)
      invariant !done ==> content.None? && FetchFrom(answers, retries, rateLimit, 0)
                          == (FetchFrom(answers, retries, rateLimit, attempt).0,
                              trace + FetchFrom(answers, retries, rateLimit, attempt).1)
      decreases retries - attempt, if done then 0 else 1
    {
      var rest := FetchFrom(answers, retries, rateLimit, attempt + 1);
      match AnswerAt(answers, attempt)
      case RequestError =>
        var step := [Sleep(rateLimit), Request(attempt), Sleep(Pow2(attempt))];
        assert trace + (step + rest.1) == (trace + step) + rest.1;
        trace := trace + step;
        attempt := attempt + 1;
      case Response(text) =>
        assert trace + ([Sleep(rateLimit), Request(attempt)] + []) == trace + [Sleep(rateLimit), Request(attempt)];
        trace := trace + [Sleep(rateLimit), Request(attempt)];
        content := Some(text);
        done := true;
    }
    if !done {
      assert FetchFrom(answers, retries, rateLimit, attempt) == (None, []);
      assert trace + [] == trace;
    }
  }

  /** `None` exactly when every attempt fails; otherwise the text of the first response. */
  lemma {:induction false} FetchOutcome(answers: seq<Attempt>, retries: int, rateLimit: nat, from: nat)
    ensures var content := FetchFrom(answers, retries, rateLimit, from).0;
            && (content.None? <==> forall a :: from <= a < retries ==> AnswerAt(answers, a).RequestError?)
            && (content.Some? ==>
                  exists a: nat :: from <= a < retries && AnswerAt(answers, a).Response?
                                   && (forall j :: from <= j < a ==> AnswerAt(answers, j).RequestError?)
                                   && AnswerAt(answers, a).text == content.value)
    decreases retries - from
  {
    if from < retries {
      FetchOutcome(answers, retries, rateLimit, from + 1);
      if AnswerAt(answers, from).RequestError? {
        var content := FetchFrom(answers, retries, rateLimit, from).0;
        if content.Some? {
          var a: nat :| from + 1 <= a < retries && AnswerAt(answers, a).Response?
                        && (forall j :: from + 1 <= j < a ==> AnswerAt(answers, j).RequestError?)
                        && AnswerAt(answers, a).text == content.value;
          assert forall j :: from <= j < a ==> AnswerAt(answers, j).RequestError?;
        }
      }
    }
  }

  /** What `fetch_page` returns: `None` exactly when all `retries` attempts fail, otherwise the text of the first response. */
  lemma {:induction false} FetchPageOutcome(answers: seq<Attempt>, retries: int, rateLimit: nat)
    ensures var content := FetchFrom(answers, retries, rateLimit, 0).0;
            && (content.None? <==> forall a :: 0 <= a < retries ==> AnswerAt(answers, a).RequestError?)
            && (content.Some? ==>
                  exists a: nat :: a < retries && FirstSuccess(answers, a) && AnswerAt(answers, a).text == content.value)
  {
    FetchOutcome(answers, retries, rateLimit, 0);
  }

  /** The trace of attempts `from .. to - 1` when each of them fails. */
  function FailedAttempts(rateLimit: nat, from: nat, to: int): seq<Event>
    decreases to - from
  {
    if from >= to then [] else [Sleep(rateLimit), Request(from), Sleep(Pow2(from))] + FailedAttempts(rateLimit, from + 1, to)
  }

  /** When every attempt fails: `retries` attempts, each paused before and backed off after, then `None`. */
  lemma {:induction false} AllAttemptsFail(answers: seq<Attempt>, retries: int, rateLimit: nat, from: nat)
    requires forall a :: from <= a < retries ==> AnswerAt(answers, a).RequestError?
    ensures FetchFrom(answers, retries, rateLimit, from) == (None, FailedAttempts(rateLimit, from, retries))
    decreases retries - from
  {
    if from < retries {
      AllAttemptsFail(answers, retries, rateLimit, from + 1);
    }
  }

  /** The first response is returned at once: no attempt follows it and no back-off after it. */
  lemma {:induction false} StopsAtFirstSuccess(answers: seq<Attempt>, retries: int, rateLimit: nat, from: nat, a: nat)
    requires from <= a < retries && AnswerAt(answers, a).Response?
    requires forall j :: from <= j < a ==> AnswerAt(answers, j).RequestError?
    ensures FetchFrom(answers, retries, rateLimit, from)
            == (Some(AnswerAt(answers, a).text), FailedAttempts(rateLimit, from, a) + [Sleep(rateLimit), Request(a)])
    decreases a - from
  {
    if from < a {
      StopsAtFirstSuccess(answers, retries, rateLimit, from + 1, a);
      var head := [Sleep(rateLimit), Request(from), Sleep(Pow2(from))];
      assert head + (FailedAttempts(rateLimit, from + 1, a) + [Sleep(rateLimit), Request(a)])
             == FailedAttempts(rateLimit, from, a) + [Sleep(rateLimit), Request(a)];
    } else {
      assert FailedAttempts(rateLimit, from, a) + [Sleep(rateLimit), Request(a)] == [Sleep(rateLimit), Request(a)];
    }
  }

  function CountRequests(trace: seq<Event>): nat {
    if trace == [] then 0 else (if trace[0].Request? then 1 else 0) + CountRequests(trace[1..])
  }

  lemma {:induction false} CountRequestsAppend(s: seq<Event>, t: seq<Event>)
    ensures CountRequests(s + t) == CountRequests(s) + CountRequests(t)
  {
    if s != [] {
      assert (s + t)[1..] == s[1..] + t;
      CountRequestsAppend(s[1..], t);
    } else {
      assert s + t == t;
    }
  }

  /** No more than `retries` requests are made, and exactly `retries` when all of them fail. */
  lemma {:induction false} AtMostRetries(answers: seq<Attempt>, retries: int, rateLimit: nat, from: nat)
    ensures CountRequests(FetchFrom(answers, retries, rateLimit, from).1) <= if from < retries then retries - from else 0
    ensures (forall a :: from <= a < retries ==> AnswerAt(answers, a).RequestError?) ==>
              CountRequests(FetchFrom(answers, retries, rateLimit, from).1) == (if from < retries then retries - from else 0)
    decreases retries - from
  {
    if from < retries {
      AtMostRetries(answers, retries, rateLimit, from + 1);
      var rest := FetchFrom(answers, retries, rateLimit, from + 1).1;
      var head := [Sleep(rateLimit), Request(from), Sleep(Pow2(from))];
      CountRequestsAppend(head, rest);
      assert CountRequests(head) == 1 by {
        assert head[1..][1..][1..] == [];
        assert CountRequests(head[1..][1..]) == 0;
        assert CountRequests(head[1..]) == 1;
      }
      var success := [Sleep(rateLimit), Request(from)];
      assert CountRequests(success) == 1 by {
        assert success[1..][1..] == [];
        assert CountRequests(success[1..]) == 1;
      }
    }
  }

  /** `retries <= 0`: no request, no pause, `None`. */
  lemma {:induction false} NoRetriesNoAttempt(answers: seq<Attempt>, retries: int, rateLimit: nat)
    requires retries <= 0
    ensures FetchFrom(answers, retries, rateLimit, 0) == (None, [])
  {
  }

  /** Three attempts against a transport that always fails: waits of 1, 2 and 4 after them. */
  lemma {:induction false} ThreeFailures(answers: seq<Attempt>, rateLimit: nat)
    requires forall a :: AnswerAt(answers, a).RequestError?
    ensures FetchFrom(answers, DefaultRetries, rateLimit, 0)
            == (None, [Sleep(rateLimit), Request(0), Sleep(1),
                       Sleep(rateLimit), Request(1), Sleep(2),
                       Sleep(rateLimit), Request(2), Sleep(4)])
  {
    AllAttemptsFail(answers, DefaultRetries, rateLimit, 0);
    assert Pow2(2) == 4 by { assert Pow2(1) == 2; }
    assert FailedAttempts(rateLimit, 3, DefaultRetries) == [];
    assert FailedAttempts(rateLimit, 2, DefaultRetries) == [Sleep(rateLimit), Request(2), Sleep(4)];
    assert FailedAttempts(rateLimit, 1, DefaultRetries)
           == [Sleep(rateLimit), Request(1), Sleep(2), Sleep(rateLimit), Request(2), Sleep(4)];
    assert FailedAttempts(rateLimit, 0, DefaultRetries)
           == [Sleep(rateLimit), Request(0), Sleep(1)] + FailedAttempts(rateLimit, 1, DefaultRetries)
           == [Sleep(rateLimit), Request(0), Sleep(1),
               Sleep(rateLimit), Request(1), Sleep(2),
               Sleep(rateLimit), Request(2), Sleep(4)];
  }
}
