/** The ordered mail batch: an ambiguous outcome stops further writes for that account only. */
module MailBatch {
  import opened Base

  /** One requested write: what to do to which message, under which UUID. */
  datatype BatchItem = BatchItem(account: Text, mailRef: Text, key: Text, action: Text)

  /** A response names the operation an error belongs to. */
  datatype Response = Success(data: Text) | Failure(code: ErrorCode, operation: Option<Text>)

  datatype BatchEntry = BatchEntry(mailRef: Text, operationId: Text, response: Response, skipped: bool)

  /** A single-message write that was made, and its response. */
  datatype Call = Call(item: BatchItem, response: Response)

  /** The single-message write: any response. */
  class Writer {
    ghost var log: seq<Call>

    constructor ()
      ensures log == []
    {
      log := [];
    }

    method Mutate(item: BatchItem) returns (response: Response)
      modifies this
      ensures log == old(log) + [Call(item, response)]
    {
      response := *;
      log := log + [Call(item, response)];
    }
  }

  // ----- What a batch promises -----

  /** The calls that gave the answers, in order: each for its own entry's item. */
  function Calls(items: seq<BatchItem>, answers: seq<Option<Response>>): seq<Call>
    requires |answers| <= |items|
  {
    if answers == [] then []
    else
      var n := |answers| - 1;
      Calls(items, answers[..n]) + match answers[n] case None => [] case Some(response) => [Call(items[n], response)]
  }

  lemma CallsNext(items: seq<BatchItem>, answers: seq<Option<Response>>, next: Option<Response>)
    requires |answers| < |items|
    ensures Calls(items, answers + [next])
            == Calls(items, answers) + match next case None => [] case Some(response) => [Call(items[|answers|], response)]
  {
    assert (answers + [next])[..|answers|] == answers;
  }

  predicate OutcomeIsUnknown(response: Response) {
    response.Failure? && response.code == OutcomeUnknown
  }

  /** Entry `j` is of the account, and its write, or its refusal beforehand, had an unknown outcome. */
  ghost predicate Blocks(items: seq<BatchItem>, failures: seq<Option<ErrorCode>>, answers: seq<Option<Response>>, j: nat, account: Text)
    requires j < |items| == |failures| && j < |answers|
  {
    && items[j].account == account
    && match answers[j]
       case Some(response) => OutcomeIsUnknown(response)
       case None => failures[j] == Some(OutcomeUnknown)
  }

  /** Entry `j` is the first to block the account among the first `n`. */
  ghost predicate FirstBlock(items: seq<BatchItem>, failures: seq<Option<ErrorCode>>, answers: seq<Option<Response>>, n: nat, j: nat,
                             account: Text)
    requires n <= |items| == |failures| && n <= |answers|
  {
    j < n && Blocks(items, failures, answers, j, account) && forall k | 0 <= k < j :: !Blocks(items, failures, answers, k, account)
  }

  ghost predicate Halted(items: seq<BatchItem>, failures: seq<Option<ErrorCode>>, answers: seq<Option<Response>>, n: nat, account: Text)
    requires n <= |items| == |failures| && n <= |answers|
  {
    exists j | 0 <= j < n :: Blocks(items, failures, answers, j, account)
  }

  /**
   Entry `i`: skipped exactly when an earlier one blocks its account, naming the first that does; else refused as
   it was beforehand; else written, and reported with the very response of its write.
   */
  ghost predicate EntryRight(items: seq<BatchItem>, failures: seq<Option<ErrorCode>>, answers: seq<Option<Response>>,
                             entry: BatchEntry, i: nat)
    requires i < |items| == |failures| && i < |answers|
  {
    && entry.mailRef == items[i].mailRef && entry.operationId == items[i].key
    && entry.skipped == Halted(items, failures, answers, i, items[i].account)
    && (answers[i].Some? <==> !entry.skipped && failures[i].None?)
    && (entry.skipped ==>
          exists j: nat :: FirstBlock(items, failures, answers, i, j, items[i].account)
                      && entry.response == Failure(OutcomeUnknown, Some(items[j].key)))
    && (!entry.skipped && failures[i].Some? ==> entry.response == Failure(failures[i].value, None))
    && (answers[i].Some? ==> entry.response == answers[i].value)
  }

  /** `blocked` maps exactly the blocked accounts to their first blocking UUID. */
  ghost predicate BlockedExact(items: seq<BatchItem>, failures: seq<Option<ErrorCode>>, answers: seq<Option<Response>>,
                               blocked: map<Text, Text>)
    requires |answers| <= |items| == |failures|
  {
    && (forall account :: account in blocked <==> Halted(items, failures, answers, |answers|, account))
    && (forall account | account in blocked ::
          exists j: nat :: FirstBlock(items, failures, answers, |answers|, j, account) && blocked[account] == items[j].key)
  }

  ghost predicate SoFar(items: seq<BatchItem>, failures: seq<Option<ErrorCode>>, answers: seq<Option<Response>>, out: seq<BatchEntry>,
                        blocked: map<Text, Text>)
    requires |out| == |answers| <= |items| == |failures|
  {
    && (forall k | 0 <= k < |out| :: EntryRight(items, failures, answers, out[k], k))
    && BlockedExact(items, failures, answers, blocked)
  }

  /**
   Runs the entries in order. `failures` are the refusals of the validation before it; `answers` are the responses
   of the writes made, one for every entry neither skipped nor refused, for that entry's item and no other.
   */
  method RunBatch(writer: Writer, items: seq<BatchItem>, failures: seq<Option<ErrorCode>>)
    returns (out: seq<BatchEntry>, ghost answers: seq<Option<Response>>)
    requires |failures| == |items|
    modifies writer
    ensures |out| == |answers| == |items|
    ensures writer.log == old(writer.log) + Calls(items, answers)
    ensures forall i | 0 <= i < |items| :: EntryRight(items, failures, answers, out[i], i)
  {
    var blocked: map<Text, Text> := map[];
    out, answers := [], [];
    var i := 0;
    while i < |items|
      invariant 0 <= i <= |items| && |out| == |answers| == i
      invariant SoFar(items, failures, answers, out, blocked)
      invariant writer.log == old(writer.log) + Calls(items, answers)
    {
      var item := items[i];
      var skipped := item.account in blocked;
      var response;
      ghost var answer: Option<Response> := None;
      if skipped {
        response := Failure(OutcomeUnknown, Some(blocked[item.account]));
      } else if failures[i].Some? {
        response := Failure(failures[i].value, None);
      } else {
        response := writer.Mutate(item);
        answer := Some(response);
      }
      ghost var wasBlocked := blocked;
      if response.Failure? && response.code == OutcomeUnknown && item.account !in blocked {
        blocked := blocked[item.account := item.key];
      }
      var entry := BatchEntry(item.mailRef, item.key, response, skipped);
      BatchStep(items, failures, answers, answer, out, entry, wasBlocked, blocked);
      CallsNext(items, answers, answer);
      out, answers := out + [entry], answers + [answer];
      i := i + 1;
    }
  }

  /** What happens at the entry after `n` others. */
  ghost predicate StepRight(items: seq<BatchItem>, failures: seq<Option<ErrorCode>>, n: nat, answer: Option<Response>,
                            entry: BatchEntry, before: map<Text, Text>, after: map<Text, Text>)
    requires n < |items| == |failures|
  {
    var item := items[n];
    && entry.mailRef == item.mailRef && entry.operationId == item.key && entry.skipped == (item.account in before)
    && (answer.Some? <==> !entry.skipped && failures[n].None?)
    && (entry.skipped ==> entry.response == Failure(OutcomeUnknown, Some(before[item.account])))
    && (!entry.skipped && failures[n].Some? ==> entry.response == Failure(failures[n].value, None))
    && (answer.Some? ==> entry.response == answer.value)
    && after == if OutcomeIsUnknown(entry.response) && item.account !in before then before[item.account := item.key] else before
  }

  /** Blocking by an entry depends on that entry alone. */
  lemma BlocksStay(items: seq<BatchItem>, failures: seq<Option<ErrorCode>>, answers: seq<Option<Response>>, next: Option<Response>, n: nat)
    requires |items| == |failures| && |answers| < |items| && n <= |answers|
    ensures forall account :: Halted(items, failures, answers + [next], n, account) == Halted(items, failures, answers, n, account)
    ensures forall j: nat, account ::
              FirstBlock(items, failures, answers + [next], n, j, account) == FirstBlock(items, failures, answers, n, j, account)
  {
    forall j: nat, account | j < |answers|
      ensures Blocks(items, failures, answers + [next], j, account) == Blocks(items, failures, answers, j, account)
    {
      assert (answers + [next])[j] == answers[j];
    }
  }

  /** One more entry keeps the earlier ones right, is right itself, and keeps `blocked` exact. */
  lemma BatchStep(items: seq<BatchItem>, failures: seq<Option<ErrorCode>>, answers: seq<Option<Response>>, answer: Option<Response>,
                  out: seq<BatchEntry>, entry: BatchEntry, before: map<Text, Text>, after: map<Text, Text>)
    requires |failures| == |items| && |out| == |answers| < |items| && SoFar(items, failures, answers, out, before)
    requires StepRight(items, failures, |out|, answer, entry, before, after)
    ensures SoFar(items, failures, answers + [answer], out + [entry], after)
  {
    var n := |out|;
    forall k | 0 <= k <= n
      ensures EntryRight(items, failures, answers + [answer], (out + [entry])[k], k)
    {
      BlocksStay(items, failures, answers, answer, k);
      if k < n {
        assert EntryRight(items, failures, answers, out[k], k);
      } else {
        NewEntry(items, failures, answers, answer, entry, before, after);
      }
    }
    BlockedStaysExact(items, failures, answers, answer, entry, before, after);
  }

  lemma NewEntry(items: seq<BatchItem>, failures: seq<Option<ErrorCode>>, answers: seq<Option<Response>>, answer: Option<Response>,
                 entry: BatchEntry, before: map<Text, Text>, after: map<Text, Text>)
    requires |failures| == |items| && |answers| < |items| && BlockedExact(items, failures, answers, before)
    requires StepRight(items, failures, |answers|, answer, entry, before, after)
    ensures EntryRight(items, failures, answers + [answer], entry, |answers|)
  {
    var n := |answers|;
    BlocksStay(items, failures, answers, answer, n);
    if entry.skipped {
      var j: nat :| FirstBlock(items, failures, answers, n, j, items[n].account) && before[items[n].account] == items[j].key;
      assert FirstBlock(items, failures, answers + [answer], n, j, items[n].account);
    }
  }

  /** The new entry blocks its account if it is the first to. */
  lemma BlockedStaysExact(items: seq<BatchItem>, failures: seq<Option<ErrorCode>>, answers: seq<Option<Response>>,
                          answer: Option<Response>, entry: BatchEntry, before: map<Text, Text>, after: map<Text, Text>)
    requires |failures| == |items| && |answers| < |items| && BlockedExact(items, failures, answers, before)
    requires StepRight(items, failures, |answers|, answer, entry, before, after)
    ensures BlockedExact(items, failures, answers + [answer], after)
  {
    var n, all := |answers|, answers + [answer];
    BlocksStay(items, failures, answers, answer, n);
    forall account
      ensures account in after <==> Halted(items, failures, all, n + 1, account)
    {
      if account in before {
        assert Halted(items, failures, all, n, account);
      } else if account in after {
        assert Blocks(items, failures, all, n, account);
      } else {
        assert !Halted(items, failures, all, n, account);
      }
    }
    forall account | account in after
      ensures exists j: nat :: FirstBlock(items, failures, all, n + 1, j, account) && after[account] == items[j].key
    {
      if account in before {
        var j: nat :| FirstBlock(items, failures, answers, n, j, account) && before[account] == items[j].key;
        assert FirstBlock(items, failures, all, n, j, account);
        assert FirstBlock(items, failures, all, n + 1, j, account);
      } else {
        assert !Halted(items, failures, all, n, account);
        assert FirstBlock(items, failures, all, n + 1, n, account);
      }
    }
  }
}
