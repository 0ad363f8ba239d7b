/** post_all_courts_to_api, which every API scraper repeats: POST each record of a
    batch in order, count the accepted and the failed POSTs and list the failures.
    The network is not modelled: the outcome of the i-th POST is an input. */
module Ingest {
  import opened Text

  /** The JSON body posted for one record, without its date and time. `note` is the
      site's free-text field ("stage" at most sites, "status" at Ranchi); `listNumber`
      is None for a site whose body has no such key. */
  datatype Payload = Payload(benchName: string, courtHallNumber: string, caseNumber: string,
                             serialNumber: int, note: string, listNumber: Option<int>)

  /** What post_court_data_to_api reports for one record: accepted (HTTP 200 or 201)
      or failed with a message (another status, a timeout, a connection error, ...). */
  datatype Outcome = Accepted | Failed(message: string)

  /** One entry of the errors list: the record's identifying fields (each site keeps
      its own pair, such as court and case, or court and item) and the message. */
  datatype Failure<K> = Failure(key: K, error: string)

  /** The dictionary the function returns. */
  datatype Summary<K> = Summary(total: nat, successful: nat, failed: nat, errors: seq<Failure<K>>)

  /** How many of the first n POSTs were accepted. */
  function CountAccepted<R>(records: seq<R>, respond: (nat, R) -> Outcome, n: nat): nat
    requires n <= |records|
  {
    if n == 0 then 0
    else CountAccepted(records, respond, n - 1) + (if respond(n - 1, records[n - 1]).Accepted? then 1 else 0)
  }

  /** The error entries of the first n POSTs, in batch order. */
  function Failures<R, K>(records: seq<R>, respond: (nat, R) -> Outcome, key: R -> K, n: nat): seq<Failure<K>>
    requires n <= |records|
  {
    if n == 0 then []
    else
      Failures(records, respond, key, n - 1)
      + match respond(n - 1, records[n - 1])
        case Accepted => []
        case Failed(m) => [Failure(key(records[n - 1]), m)]
  }

  /** Posts the batch when posting is enabled; with posting disabled nothing is sent
      and every count is 0. */
  method PostAll<R, K>(enabled: bool, records: seq<R>, respond: (nat, R) -> Outcome, key: R -> K)
    returns (s: Summary<K>)
    ensures !enabled ==> s == Summary(0, 0, 0, [])
    ensures enabled ==> s.total == |records|
    ensures enabled ==> s.successful == CountAccepted(records, respond, |records|)
    ensures enabled ==> s.errors == Failures(records, respond, key, |records|)
    ensures s.failed == |s.errors|
  {
    if !enabled {
      return Summary(0, 0, 0, []);
    }
    var successful, failed, errors := 0, 0, [];
    var i := 0;
    while i < |records|
      invariant 0 <= i <= |records|
      invariant successful == CountAccepted(records, respond, i)
      invariant errors == Failures(records, respond, key, i)
      invariant failed == |errors|
    {
      match respond(i, records[i]) {
        case Accepted =>
          successful := successful + 1;
        case Failed(m) =>
          failed := failed + 1;
          errors := errors + [Failure(key(records[i]), m)];
      }
      i := i + 1;
    }
    s := Summary(|records|, successful, failed, errors);
  }

  /** Every POST is counted exactly once: accepted plus failed is the batch size. */
  lemma {:induction false} TallyBalances<R, K>(records: seq<R>, respond: (nat, R) -> Outcome, key: R -> K, n: nat)
    requires n <= |records|
    ensures CountAccepted(records, respond, n) + |Failures(records, respond, key, n)| == n
  {
    if n > 0 {
      TallyBalances(records, respond, key, n - 1);
    }
  }

  /** The summary of an enabled run adds up. */
  lemma SummaryBalances<R, K>(records: seq<R>, respond: (nat, R) -> Outcome, key: R -> K, s: Summary<K>)
    requires s.total == |records| && s.successful == CountAccepted(records, respond, |records|)
    requires s.errors == Failures(records, respond, key, |records|) && s.failed == |s.errors|
    ensures s.successful + s.failed == s.total
  {
    TallyBalances(records, respond, key, |records|);
  }

  /** Each error entry comes from a failed POST of the batch, with that POST's message. */
  lemma {:induction false} FailureFromFailedPost<R, K>(records: seq<R>, respond: (nat, R) -> Outcome, key: R -> K, n: nat, k: nat)
    requires n <= |records| && k < |Failures(records, respond, key, n)|
    ensures exists i :: 0 <= i < n && respond(i, records[i]) == Failed(Failures(records, respond, key, n)[k].error)
                        && Failures(records, respond, key, n)[k].key == key(records[i])
  {
    var prev := Failures(records, respond, key, n - 1);
    if k < |prev| {
      FailureFromFailedPost(records, respond, key, n - 1, k);
      var i :| 0 <= i < n - 1 && respond(i, records[i]) == Failed(prev[k].error) && prev[k].key == key(records[i]);
      assert Failures(records, respond, key, n)[k] == prev[k];
    } else {
      assert respond(n - 1, records[n - 1]).Failed?;
    }
  }

  /** A batch whose POSTs are all accepted reports no errors. */
  lemma {:induction false} AllAcceptedNoErrors<R, K>(records: seq<R>, respond: (nat, R) -> Outcome, key: R -> K, n: nat)
    requires n <= |records|
    requires forall i :: 0 <= i < n ==> respond(i, records[i]) == Accepted
    ensures Failures(records, respond, key, n) == []
    ensures CountAccepted(records, respond, n) == n
  {
    if n > 0 {
      AllAcceptedNoErrors(records, respond, key, n - 1);
    }
  }
}
