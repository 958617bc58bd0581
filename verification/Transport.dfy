/**
 One EAS command over HTTP: how often it is sent, and what an error lets the caller conclude about
 its effect on Exchange.
 */
module Transport {
  import opened Base

  datatype Safety = RetrySafe | Mutation

  datatype EasError =
    | Authentication | AccessDenied | PolicyRefreshRequired | InvalidSyncKey | AccountRemoteWipe
    | Throttled | HttpUnavailable | ResponseTooLarge | ResourceBusy | Network | Protocol | OutcomeUnknown

  datatype Chunk = Data(bytes: seq<Byte>) | Broken

  /** What comes back over the wire; `length` is the announced content length. */
  datatype Raw = Raw(sameOrigin: bool, status: nat, length: Option<nat>, chunks: seq<Chunk>)

  /** One try: the request could not be built, got no answer, or was answered. */
  datatype Try = Unsendable(error: EasError) | NoAnswer | Answered(raw: Raw)

  function Failure(t: Try): EasError
    requires !t.Answered?
  {
    if t.Unsendable? then t.error else Network
  }

  datatype Response = Response(status: nat, body: seq<Byte>)

  const RETRIES: nat := 2

  function RetryCount(safety: Safety): nat {
    if safety == RetrySafe then RETRIES else 0
  }

  /** Both `final_error` and `response_error`: a mutation that may have been sent has an unknown outcome. */
  function Ambiguous(safety: Safety, e: EasError): EasError {
    if safety == Mutation then EasError.OutcomeUnknown else e
  }

  // ----- The response body -----

  function Body(chunks: seq<Chunk>): seq<Byte> {
    if chunks == [] then [] else Body(chunks[..|chunks|-1]) + (if chunks[|chunks|-1].Data? then chunks[|chunks|-1].bytes else [])
  }

  ghost predicate Whole(chunks: seq<Chunk>) {
    forall i | 0 <= i < |chunks| :: chunks[i].Data?
  }

  lemma {:induction false} BodyGrows(chunks: seq<Chunk>, n: nat)
    requires n <= |chunks|
    ensures |Body(chunks[..n])| <= |Body(chunks)|
    decreases |chunks|
  {
    if n < |chunks| {
      BodyGrows(chunks[..|chunks|-1], n);
      assert chunks[..|chunks|-1][..n] == chunks[..n];
    } else {
      assert chunks[..n] == chunks;
    }
  }

  /** Reading stops at chunk `n`, the first that is broken or does not fit, with this error. */
  ghost predicate StopsAt(chunks: seq<Chunk>, limit: nat, n: nat, e: EasError) {
    && n < |chunks| && Whole(chunks[..n]) && |Body(chunks[..n])| <= limit
    && if chunks[n].Broken? then e == Network else |Body(chunks[..n+1])| > limit && e == ResponseTooLarge
  }

  ghost predicate BodyFails(chunks: seq<Chunk>, limit: nat, safety: Safety, e: EasError) {
    exists n: nat, cause :: StopsAt(chunks, limit, n, cause) && e == Ambiguous(safety, cause)
  }

  /** Reads the body with a limit; succeeds exactly when nothing broke and the whole body fits. */
  method ReadBody(chunks: seq<Chunk>, limit: nat, safety: Safety) returns (r: Result<seq<Byte>, EasError>)
    ensures r.Ok? <==> Whole(chunks) && |Body(chunks)| <= limit
    ensures r.Ok? ==> r.value == Body(chunks)
    ensures r.Err? ==> BodyFails(chunks, limit, safety, r.error)
  {
    var body: seq<Byte> := [];
    var i := 0;
    while i < |chunks|
      invariant 0 <= i <= |chunks| && Whole(chunks[..i])
      invariant body == Body(chunks[..i]) && |body| <= limit
    {
      assert chunks[..i+1][..i] == chunks[..i];
      if chunks[i].Broken? {
        assert StopsAt(chunks, limit, i, Network);
        return Err(Ambiguous(safety, Network));
      }
      if |chunks[i].bytes| > limit - |body| {
        BodyGrows(chunks, i + 1);
        assert StopsAt(chunks, limit, i, ResponseTooLarge);
        return Err(Ambiguous(safety, ResponseTooLarge));
      }
      body := body + chunks[i].bytes;
      i := i + 1;
    }
    assert chunks[..i] == chunks;
    return Ok(body);
  }

  predicate Redirect(status: nat) {
    300 <= status < 400
  }

  ghost predicate BodyReadable(raw: Raw, limit: nat) {
    && (raw.length.Some? ==> raw.length.value <= limit)
    && Whole(raw.chunks) && |Body(raw.chunks)| <= limit
  }

  /** `normalize`, as the tests it makes in order. */
  ghost predicate Normalized(raw: Raw, limit: nat, safety: Safety, r: Result<Response, EasError>) {
    if !raw.sameOrigin || Redirect(raw.status) then r == Err(Ambiguous(safety, Protocol))
    else if raw.status == 401 then r == Err(Authentication)
    else if raw.status == 403 then r == Err(AccessDenied)
    else if raw.status == 429 || raw.status == 503 then r == Ok(Response(raw.status, []))
    else if BodyReadable(raw, limit) then r == Ok(Response(raw.status, Body(raw.chunks)))
    else if raw.length.Some? && raw.length.value > limit then r == Err(Ambiguous(safety, ResponseTooLarge))
    else r.Err? && BodyFails(raw.chunks, limit, safety, r.error)
  }

  method Normalize(raw: Raw, limit: nat, safety: Safety) returns (r: Result<Response, EasError>)
    ensures Normalized(raw, limit, safety, r)
  {
    if !raw.sameOrigin || Redirect(raw.status) {
      return Err(Ambiguous(safety, Protocol));
    }
    if raw.status == 401 {
      return Err(Authentication);
    }
    if raw.status == 403 {
      return Err(AccessDenied);
    }
    if raw.status == 429 || raw.status == 503 {
      return Ok(Response(raw.status, []));
    }
    if raw.length.Some? && raw.length.value > limit {
      return Err(Ambiguous(safety, ResponseTooLarge));
    }
    var body := ReadBody(raw.chunks, limit, safety);
    if body.Err? {
      return Err(body.error);
    }
    return Ok(Response(raw.status, body.value));
  }

  // ----- Sending -----

  /** The gate and the wire: a command may be admitted or not, and every try may end any way. */
  class Wire {
    ghost var admissions: seq<bool>
    ghost var tries: seq<Try>

    constructor ()
      ensures admissions == [] && tries == []
    {
      admissions, tries := [], [];
    }

    method Admit() returns (admitted: bool)
      modifies this`admissions
      ensures admissions == old(admissions) + [admitted]
    {
      admitted := *;
      admissions := admissions + [admitted];
    }

    method SendOnce() returns (t: Try)
      modifies this`tries
      ensures tries == old(tries) + [t]
    {
      t := *;
      tries := tries + [t];
    }
  }

  /** A command's result follows from the tries it made: all but the last got no answer. */
  ghost predicate CommandOutcome(tries: seq<Try>, limit: nat, safety: Safety, r: Result<Response, EasError>) {
    && |tries| <= RetryCount(safety) + 1
    && (forall i | 0 <= i < |tries| - 1 :: !tries[i].Answered?)
    && (if tries == [] then r == Err(ResourceBusy)
        else
          var last := tries[|tries|-1];
          if last.Answered? then Normalized(last.raw, limit, safety, r)
          else |tries| == RetryCount(safety) + 1 && r == Err(Ambiguous(safety, Failure(last))))
  }

  /** Asks the gate once, and sends exactly what it admits: until an answer, and at most three times, or once for a mutation. */
  method Command(wire: Wire, limit: nat, safety: Safety) returns (r: Result<Response, EasError>, ghost tries: seq<Try>)
    modifies wire
    ensures wire.tries == old(wire.tries) + tries && wire.admissions == old(wire.admissions) + [tries != []]
    ensures tries == [] ==> r == Err(ResourceBusy)
    ensures |tries| <= (if safety == Mutation then 1 else 3) && forall i | 0 <= i < |tries| - 1 :: !tries[i].Answered?
    ensures tries != [] && !tries[|tries|-1].Answered? ==> |tries| == if safety == Mutation then 1 else 3
    ensures CommandOutcome(tries, limit, safety, r)
  {
    tries := [];
    var admitted := wire.Admit();
    if !admitted {
      return Err(ResourceBusy), tries;
    }
    var left := RetryCount(safety);
    while left > 0
      invariant 0 <= left <= RetryCount(safety) && |tries| == RetryCount(safety) - left
      invariant wire.tries == old(wire.tries) + tries && wire.admissions == old(wire.admissions) + [true]
      invariant forall i | 0 <= i < |tries| :: !tries[i].Answered?
    {
      var t := wire.SendOnce();
      tries := tries + [t];
      if t.Answered? {
        r := Normalize(t.raw, limit, safety);
        return r, tries;
      }
      left := left - 1;
    }
    var t := wire.SendOnce();
    tries := tries + [t];
    if t.Answered? {
      r := Normalize(t.raw, limit, safety);
    } else {
      r := Err(Ambiguous(safety, Failure(t)));
    }
  }

  // ----- Error classes of a mutation -----

  function NormalizeStatus(response: Response): Result<Response, EasError> {
    if response.status == 449 then Err(PolicyRefreshRequired)
    else if response.status == 429 then Err(Throttled)
    else if response.status == 503 then Err(HttpUnavailable)
    else if response.status in {200, 201, 204} then Ok(response)
    else if response.status == 401 then Err(Authentication)
    else if response.status == 403 then Err(AccessDenied)
    else Err(Protocol)
  }

  predicate PassesThrough(e: EasError) {
    e in {Authentication, AccessDenied, PolicyRefreshRequired, InvalidSyncKey, AccountRemoteWipe, Throttled}
  }

  function MutationError(e: EasError): EasError {
    if PassesThrough(e) then e else EasError.OutcomeUnknown
  }

  /** `parse` reads the command's own status out of the body; it is arbitrary. */
  function MutationResult<T>(sent: Result<Response, EasError>, parse: seq<Byte> -> Result<T, EasError>): Result<T, EasError> {
    match sent
    case Err(e) => Err(e)
    case Ok(response) =>
      match NormalizeStatus(response)
      case Err(e) => Err(MutationError(e))
      case Ok(accepted) =>
        match parse(accepted.body)
        case Ok(value) => Ok(value)
        case Err(e) => Err(MutationError(e))
  }

  /** The server answered this very request and refused it: by HTTP status, or by the command's own status. */
  ghost predicate ExplicitlyRejected<T>(raw: Raw, limit: nat, parse: seq<Byte> -> Result<T, EasError>) {
    && raw.sameOrigin
    && (|| raw.status in {401, 403, 429}
        || (raw.status == 449 && BodyReadable(raw, limit))
        || (raw.status in {200, 201, 204} && BodyReadable(raw, limit)
            && parse(Body(raw.chunks)).Err? && PassesThrough(parse(Body(raw.chunks)).error)))
  }

  ghost predicate Accepted<T>(raw: Raw, limit: nat, parse: seq<Byte> -> Result<T, EasError>) {
    raw.sameOrigin && raw.status in {200, 201, 204} && BodyReadable(raw, limit) && parse(Body(raw.chunks)).Ok?
  }

  /**
   A client mutation makes at most one try. It fails with anything but OutcomeUnknown exactly when it was never
   tried or the server explicitly rejected it, and it succeeds exactly when the server accepted it; a lost
   answer, a 503, a redirect, a changed origin, an oversized or broken body and an unparsable reply all
   leave the outcome unknown.
   */
  lemma MutationErrorsAreSound<T>(tries: seq<Try>, limit: nat, r: Result<Response, EasError>,
                                  parse: seq<Byte> -> Result<T, EasError>)
    requires CommandOutcome(tries, limit, Mutation, r)
    ensures |tries| <= 1
    ensures var result := MutationResult(r, parse);
            && (result.Err? && result.error != EasError.OutcomeUnknown <==>
                  tries == [] || (tries[0].Answered? && ExplicitlyRejected(tries[0].raw, limit, parse)))
            && (result.Ok? <==> tries != [] && tries[0].Answered? && Accepted(tries[0].raw, limit, parse))
  {
    if tries != [] && tries[0].Answered? {
      assert Normalized(tries[0].raw, limit, Mutation, r);
    }
  }

  /** Every answer to a mutation, by its status: which error, or whose value, the caller gets. */
  lemma MutationAnswers<T>(raw: Raw, limit: nat, r: Result<Response, EasError>, parse: seq<Byte> -> Result<T, EasError>)
    requires Normalized(raw, limit, Mutation, r)
    ensures var result := MutationResult(r, parse);
            if !raw.sameOrigin || (raw.status !in {401, 403, 429} && !BodyReadable(raw, limit)) then result == Err(EasError.OutcomeUnknown)
            else if raw.status == 401 then result == Err(Authentication)
            else if raw.status == 403 then result == Err(AccessDenied)
            else if raw.status == 429 then result == Err(Throttled)
            else if raw.status == 449 then result == Err(PolicyRefreshRequired)
            else if raw.status !in {200, 201, 204} then result == Err(EasError.OutcomeUnknown)
            else if parse(Body(raw.chunks)).Ok? then result == parse(Body(raw.chunks))
            else if PassesThrough(parse(Body(raw.chunks)).error) then result == Err(parse(Body(raw.chunks)).error)
            else result == Err(EasError.OutcomeUnknown)
  {
    assert raw.status == 503 ==> !raw.sameOrigin || r == Ok(Response(503, []));
  }

  /** And every answer to a command that may be repeated. */
  lemma ReadAnswers(raw: Raw, limit: nat, r: Result<Response, EasError>)
    requires Normalized(raw, limit, RetrySafe, r)
    ensures var result := if r.Err? then r else NormalizeStatus(r.value);
            if !raw.sameOrigin || 300 <= raw.status < 400 then result == Err(Protocol)
            else if raw.status == 401 then result == Err(Authentication)
            else if raw.status == 403 then result == Err(AccessDenied)
            else if raw.status == 429 then result == Err(Throttled)
            else if raw.status == 503 then result == Err(HttpUnavailable)
            else if raw.length.Some? && raw.length.value > limit then result == Err(ResponseTooLarge)
            else if !BodyReadable(raw, limit) then result.Err? && BodyFails(raw.chunks, limit, RetrySafe, result.error)
            else if raw.status == 449 then result == Err(PolicyRefreshRequired)
            else if raw.status in {200, 201, 204} then result == Ok(Response(raw.status, Body(raw.chunks)))
            else result == Err(Protocol)
  {
  }
}
