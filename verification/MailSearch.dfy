/** The bounded search over an untrusted server, and what its completeness claim is worth. */
module MailSearch {
  import opened Base

  const PAGE: nat := 100
  const CALLS: nat := 10

  /** `source` is the item's identity on the server, `fields` what filters look at. */
  datatype Mail = Mail(source: Text, fields: Text)
  datatype Page = Page(items: seq<Mail>, total: Option<nat>, rangeStart: Option<nat>, truncated: bool)
  type Filters = Text -> Option<bool>

  datatype Search = Search(
    items: seq<Mail>, calls: nat, estimatedTotal: Option<nat>, examined: nat, unknown: nat, complete: bool,
    seen: set<Text>, start: nat)

  const EMPTY: Search := Search([], 0, None, 0, 0, false, {}, 0)

  datatype Call = Call(start: nat, answer: Result<Page, ErrorCode>)

  // ----- One page -----

  function ExamineOne(s: Search, mail: Mail, matches: Filters): Search {
    var s := s.(seen := s.seen + {mail.source}, examined := s.examined + 1);
    match matches(mail.fields)
    case Some(true) => s.(items := s.items + [mail])
    case Some(false) => s
    case None => s.(unknown := s.unknown + 1)
  }

  /** None when a candidate repeats. */
  function Examine(s: Search, mails: seq<Mail>, matches: Filters): Option<Search> {
    if mails == [] then Some(s)
    else
      match Examine(s, mails[..|mails|-1], matches)
      case None => None
      case Some(before) =>
        var mail := mails[|mails|-1];
        if mail.source in before.seen then None else Some(ExamineOne(before, mail, matches))
  }

  datatype Progress = Going(search: Search) | Done(search: Search) | Failed(error: ErrorCode)

  function Either(a: Option<nat>, b: Option<nat>): Option<nat> {
    if a.Some? then a else b
  }

  function MoreReported(page: Page, next: nat): bool {
    page.total.Some? && page.total.value > next
  }

  /** What one answer makes of the search. */
  function Consume(s: Search, answer: Result<Page, ErrorCode>, matches: Filters): Progress {
    match answer
    case Err(e) => Failed(e)
    case Ok(page) =>
      var s := s.(calls := s.calls + 1, estimatedTotal := Either(page.total, s.estimatedTotal));
      if |page.items| > PAGE || (page.rangeStart.Some? && page.rangeStart.value != s.start) then Failed(ProtocolError)
      else
        match Examine(s, page.items, matches)
        case None => Failed(ProtocolError)
        case Some(s) =>
          var next := s.start + |page.items|;
          if page.truncated then Done(s)
          else if |page.items| < PAGE && !MoreReported(page, next) then Done(s.(complete := page.total.Some?))
          else if |page.items| == 0 then Done(s)
          else Going(s.(start := next))
  }

  function After(calls: seq<Call>, matches: Filters): Progress {
    if calls == [] then Going(EMPTY)
    else
      match After(calls[..|calls|-1], matches)
      case Going(s) => Consume(s, calls[|calls|-1].answer, matches)
      case stopped => stopped
  }

  /** The calls a search makes: each starts where the last one ended, and they stop when it stops. */
  ghost predicate Made(calls: seq<Call>, matches: Filters) {
    calls == [] || (Made(calls[..|calls|-1], matches) && MayCall(calls[..|calls|-1], calls[|calls|-1], matches))
  }

  ghost predicate MayCall(before: seq<Call>, call: Call, matches: Filters) {
    |before| < CALLS && After(before, matches).Going? && call.start == After(before, matches).search.start
  }

  lemma OneMoreCall(before: seq<Call>, call: Call, matches: Filters)
    requires Made(before, matches) && MayCall(before, call, matches)
    ensures Made(before + [call], matches)
    ensures After(before + [call], matches) == Consume(After(before, matches).search, call.answer, matches)
  {
    assert (before + [call])[..|before|] == before;
  }

  class Server {
    ghost var calls: seq<Call>

    constructor ()
      ensures calls == []
    {
      calls := [];
    }

    /** Any answer at all. */
    method SearchMailPage(start: nat) returns (answer: Result<Page, ErrorCode>)
      modifies this
      ensures calls == old(calls) + [Call(start, answer)]
    {
      answer := *;
      calls := calls + [Call(start, answer)];
    }
  }

  method ExaminePage(s: Search, mails: seq<Mail>, matches: Filters) returns (r: Option<Search>)
    ensures r == Examine(s, mails, matches)
  {
    var search := s;
    for i := 0 to |mails|
      invariant Examine(s, mails[..i], matches) == Some(search)
    {
      assert mails[..i + 1][..i] == mails[..i];
      var mail := mails[i];
      if mail.source in search.seen {
        RepeatStays(s, mails, matches, i + 1);
        return None;
      }
      search := search.(seen := search.seen + {mail.source}, examined := search.examined + 1);
      match matches(mail.fields)
      case Some(true) => search := search.(items := search.items + [mail]);
      case Some(false) =>
      case None => search := search.(unknown := search.unknown + 1);
    }
    assert mails[..|mails|] == mails;
    return Some(search);
  }

  lemma {:induction false} RepeatStays(s: Search, mails: seq<Mail>, matches: Filters, n: nat)
    requires n <= |mails| && Examine(s, mails[..n], matches).None?
    ensures Examine(s, mails, matches).None?
    decreases |mails|
  {
    if n < |mails| {
      assert mails[..|mails|-1][..n] == mails[..n];
      RepeatStays(s, mails[..|mails|-1], matches, n);
    } else {
      assert mails[..n] == mails;
    }
  }

  /** The loop's body after an answer has come. */
  method SearchPage(s: Search, page: Page, matches: Filters) returns (p: Progress)
    ensures p == Consume(s, Ok(page), matches)
  {
    var search := s.(calls := s.calls + 1, estimatedTotal := if page.total.Some? then page.total else s.estimatedTotal);
    if |page.items| > PAGE || (page.rangeStart.Some? && page.rangeStart.value != search.start) {
      return Failed(ProtocolError);
    }
    var count := |page.items|;
    var next := search.start + count;
    var examined := ExaminePage(search, page.items, matches);
    if examined.None? {
      return Failed(ProtocolError);
    }
    ExamineKeepsStart(search, page.items, matches);
    search := examined.value;
    if page.truncated {
      return Done(search);
    }
    if count < PAGE && !(page.total.Some? && page.total.value > next) {
      return Done(search.(complete := page.total.Some?));
    }
    if count == 0 {
      return Done(search);
    }
    return Going(search.(start := next));
  }

  method SearchCandidates(server: Server, matches: Filters) returns (r: Result<Search, ErrorCode>, ghost calls: seq<Call>)
    modifies server
    ensures server.calls == old(server.calls) + calls
    ensures Made(calls, matches)
    ensures match After(calls, matches)
            case Failed(e) => r == Err(e)
            case Done(s) => r == Ok(s)
            case Going(s) => r == Ok(s) && |calls| == CALLS
  {
    var search := EMPTY;
    calls := [];
    for n := 0 to CALLS
      invariant |calls| == n && server.calls == old(server.calls) + calls
      invariant Made(calls, matches) && After(calls, matches) == Going(search)
    {
      var answer := server.SearchMailPage(search.start);
      OneMoreCall(calls, Call(search.start, answer), matches);
      calls := calls + [Call(search.start, answer)];
      if answer.Err? {
        return Err(answer.error), calls;
      }
      var progress := SearchPage(search, answer.value, matches);
      match progress
      case Failed(e) => return Err(e), calls;
      case Done(s) => return Ok(s), calls;
      case Going(s) => search := s;
    }
    return Ok(search), calls;
  }

  lemma {:induction false} ExamineKeepsStart(s: Search, mails: seq<Mail>, matches: Filters)
    ensures Examine(s, mails, matches).Some? ==> Examine(s, mails, matches).value.start == s.start
  {
    if mails != [] {
      ExamineKeepsStart(s, mails[..|mails|-1], matches);
    }
  }

  // ----- What was examined -----

  function Matching(mails: seq<Mail>, matches: Filters): seq<Mail> {
    if mails == [] then []
    else
      var mail := mails[|mails|-1];
      Matching(mails[..|mails|-1], matches) + (if matches(mail.fields) == Some(true) then [mail] else [])
  }

  function Unknown(mails: seq<Mail>, matches: Filters): nat {
    if mails == [] then 0
    else Unknown(mails[..|mails|-1], matches) + (if matches(mails[|mails|-1].fields).None? then 1 else 0)
  }

  ghost predicate Distinct(mails: seq<Mail>) {
    forall i, j | 0 <= i < j < |mails| :: mails[i].source != mails[j].source
  }

  /** The search tells exactly about `mails`: all distinct, filtered in order, and counted. */
  ghost predicate Tells(s: Search, mails: seq<Mail>, matches: Filters) {
    && Distinct(mails)
    && (forall x :: x in s.seen <==> exists i :: 0 <= i < |mails| && mails[i].source == x)
    && s.items == Matching(mails, matches) && s.unknown == Unknown(mails, matches) && s.examined == |mails|
  }

  lemma OneMore(s: Search, mails: seq<Mail>, mail: Mail, matches: Filters)
    requires Tells(s, mails, matches)
    ensures mail.source !in s.seen <==> Distinct(mails + [mail])
    ensures mail.source !in s.seen ==> Tells(ExamineOne(s, mail, matches), mails + [mail], matches)
  {
    var all := mails + [mail];
    assert all[..|mails|] == mails && all[|mails|] == mail;
    if mail.source in s.seen {
      var i :| 0 <= i < |mails| && mails[i].source == mail.source;
      assert all[i].source == all[|mails|].source;
    } else {
      var t := ExamineOne(s, mail, matches);
      forall x ensures x in t.seen <==> exists i :: 0 <= i < |all| && all[i].source == x {
        if x in s.seen {
          var i :| 0 <= i < |mails| && mails[i].source == x;
          assert all[i].source == x;
        }
        if x == mail.source {
          assert all[|mails|].source == x;
        }
      }
    }
  }

  /** Everything an examination leaves alone. */
  ghost predicate SameFrame(s: Search, t: Search) {
    s.calls == t.calls && s.estimatedTotal == t.estimatedTotal && s.complete == t.complete && s.start == t.start
  }

  lemma {:induction false} ExamineTells(s: Search, before: seq<Mail>, mails: seq<Mail>, matches: Filters)
    requires Tells(s, before, matches)
    ensures Examine(s, mails, matches).Some? <==> Distinct(before + mails)
    ensures Examine(s, mails, matches).Some? ==>
              Tells(Examine(s, mails, matches).value, before + mails, matches) && SameFrame(s, Examine(s, mails, matches).value)
  {
    if mails == [] {
      assert before + mails == before;
    } else {
      var n := |mails| - 1;
      ExamineTells(s, before, mails[..n], matches);
      assert before + mails == (before + mails[..n]) + [mails[n]];
      if Examine(s, mails[..n], matches).Some? {
        OneMore(Examine(s, mails[..n], matches).value, before + mails[..n], mails[n], matches);
      } else {
        assert (before + mails)[..|before| + n] == before + mails[..n];
      }
    }
  }

  function PageItems(call: Call): seq<Mail> {
    if call.answer.Ok? then call.answer.value.items else []
  }

  /** All candidates of the pages, in order. */
  function Examined(calls: seq<Call>): seq<Mail> {
    if calls == [] then [] else Examined(calls[..|calls|-1]) + PageItems(calls[|calls|-1])
  }

  /** Totals as the server last reported one. */
  function LastTotal(calls: seq<Call>): Option<nat> {
    if calls == [] then None
    else
      var answer := calls[|calls|-1].answer;
      Either(if answer.Ok? then answer.value.total else None, LastTotal(calls[..|calls|-1]))
  }

  ghost predicate Sound(p: Progress, calls: seq<Call>, matches: Filters) {
    p.Failed? ||
    (var s := p.search;
     && Tells(s, Examined(calls), matches) && s.calls == |calls| && s.examined <= PAGE * |calls|
     && s.estimatedTotal == LastTotal(calls)
     && (p.Going? ==> s.start == s.examined && !s.complete)
     && (s.complete ==> LastTotal(calls).Some? && LastTotal(calls).value <= s.examined))
  }

  lemma ConsumeSound(s: Search, before: seq<Call>, call: Call, matches: Filters)
    requires Sound(Going(s), before, matches)
    ensures Sound(Consume(s, call.answer, matches), before + [call], matches)
    ensures Consume(s, call.answer, matches).Failed? || Distinct(Examined(before + [call]))
  {
    var all := before + [call];
    assert all[..|before|] == before && all[|before|] == call;
    if call.answer.Ok? {
      var page := call.answer.value;
      var s' := s.(calls := s.calls + 1, estimatedTotal := Either(page.total, s.estimatedTotal));
      assert Tells(s', Examined(before), matches);
      ExamineTells(s', Examined(before), page.items, matches);
    }
  }

  lemma {:induction false} AfterSound(calls: seq<Call>, matches: Filters)
    requires Made(calls, matches)
    ensures Sound(After(calls, matches), calls, matches) && |calls| <= CALLS
    decreases |calls|
  {
    if calls != [] {
      var n := |calls| - 1;
      AfterSound(calls[..n], matches);
      assert calls == calls[..n] + [calls[n]];
      ConsumeSound(After(calls[..n], matches).search, calls[..n], calls[n], matches);
    }
  }

  /**
   Against any server: at most ten calls and a thousand candidates, all distinct; the result is their filter;
   and completeness is claimed only when the last reported total is no more than what was examined.
   */
  lemma CoverageIsSound(calls: seq<Call>, matches: Filters)
    requires Made(calls, matches) && !After(calls, matches).Failed?
    ensures var s := After(calls, matches).search;
            && s.calls == |calls| <= 10 && s.examined == |Examined(calls)| <= 1000 && Distinct(Examined(calls))
            && s.items == Matching(Examined(calls), matches) && s.unknown == Unknown(Examined(calls), matches)
            && (s.complete ==> LastTotal(calls).Some? && LastTotal(calls).value <= s.examined)
  {
    AfterSound(calls, matches);
  }

  /** The search stands after `before` and goes on. */
  ghost predicate Stands(s: Search, before: seq<Mail>, matches: Filters) {
    Tells(s, before, matches) && s.start == |before| && !s.complete
  }

  ghost predicate PageFails(page: Page, before: nat, all: seq<Mail>) {
    |page.items| > 100 || (page.rangeStart.Some? && page.rangeStart.value != before) || !Distinct(all)
  }

  ghost predicate PageCompletes(page: Page, all: seq<Mail>) {
    !page.truncated && |page.items| < 100 && page.total.Some? && page.total.value <= |all|
  }

  ghost predicate PageGoesOn(page: Page, all: seq<Mail>) {
    !page.truncated && (|page.items| == 100 || (page.items != [] && page.total.Some? && page.total.value > |all|))
  }

  /** What a page makes of the search, in terms of all that was examined. */
  ghost predicate StopsRight(p: Progress, page: Page, before: nat, all: seq<Mail>, total: Option<nat>) {
    && (p.Failed? <==> PageFails(page, before, all)) && (p.Failed? ==> p.error == ProtocolError)
    && (!p.Failed? ==>
          p.search.estimatedTotal == total && p.search.complete == PageCompletes(page, all) && p.Going? == PageGoesOn(page, all))
  }

  lemma PageStops(s: Search, before: seq<Mail>, page: Page, matches: Filters)
    requires Stands(s, before, matches)
    ensures StopsRight(Consume(s, Ok(page), matches), page, |before|, before + page.items, Either(page.total, s.estimatedTotal))
  {
    var s' := s.(calls := s.calls + 1, estimatedTotal := Either(page.total, s.estimatedTotal));
    assert Tells(s', before, matches);
    ExamineTells(s', before, page.items, matches);
  }

  /**
   When a page fails the search, stops it, and makes it complete, in terms of all that was examined: it fails
   exactly for more than a hundred items, a range that starts elsewhere, or a candidate seen before; it is
   complete exactly when the page is not truncated, not full, and gives a total that has been examined; it goes on
   exactly after a page that is not truncated and is full, or is not empty while more is reported.
   */
  lemma StopsExactly(calls: seq<Call>, matches: Filters)
    requires calls != [] && Made(calls, matches) && calls[|calls|-1].answer.Ok?
    ensures StopsRight(After(calls, matches), calls[|calls|-1].answer.value, |Examined(calls[..|calls|-1])|, Examined(calls), LastTotal(calls))
  {
    var n := |calls| - 1;
    AfterSound(calls[..n], matches);
    PageStops(After(calls[..n], matches).search, Examined(calls[..n]), calls[n].answer.value, matches);
  }

  /** A failed call fails the search with its own error. */
  lemma CallErrorFails(calls: seq<Call>, matches: Filters)
    requires calls != [] && Made(calls, matches) && calls[|calls|-1].answer.Err?
    ensures After(calls, matches) == Failed(calls[|calls|-1].answer.error)
  {
  }

  /** Every call asks from exactly where the candidates examined before it end. */
  lemma {:induction false} CallsStartAtExamined(calls: seq<Call>, matches: Filters, k: nat)
    requires Made(calls, matches) && k < |calls|
    ensures calls[k].start == |Examined(calls[..k])|
  {
    if k == |calls| - 1 {
      AfterSound(calls[..k], matches);
    } else {
      var before := calls[..|calls|-1];
      CallsStartAtExamined(before, matches, k);
      assert before[..k] == calls[..k];
    }
  }

  // ----- Against an honest server -----

  /** Pages of a stable list: any stretch from the asked start, and its true length when a total is given. */
  ghost predicate Honest(calls: seq<Call>, list: seq<Mail>) {
    forall k | 0 <= k < |calls| :: HonestCall(calls[k], list)
  }

  ghost predicate HonestCall(call: Call, list: seq<Mail>) {
    call.answer.Ok? ==>
      var page := call.answer.value;
      call.start + |page.items| <= |list| && page.items == list[call.start..call.start + |page.items|]
      && (page.total.Some? ==> page.total.value == |list|)
  }

  /** And each page is as full as the list allows, with its total and range. */
  ghost predicate Full(calls: seq<Call>, list: seq<Mail>) {
    forall k | 0 <= k < |calls| :: FullCall(calls[k], list)
  }

  ghost predicate FullCall(call: Call, list: seq<Mail>) {
    && call.answer.Ok?
    && var page := call.answer.value;
       && |page.items| == (if call.start + PAGE <= |list| then PAGE else if call.start <= |list| then |list| - call.start else 0)
       && page.total == Some(|list|) && !page.truncated && (page.rangeStart.Some? ==> page.rangeStart.value == call.start)
  }

  lemma {:induction false} HonestPrefix(calls: seq<Call>, list: seq<Mail>, matches: Filters)
    requires Made(calls, matches) && Honest(calls, list)
    ensures |Examined(calls)| <= |list| && Examined(calls) == list[..|Examined(calls)|]
    ensures LastTotal(calls).Some? ==> LastTotal(calls).value == |list|
  {
    if calls != [] {
      var n := |calls| - 1;
      var before := calls[..n];
      HonestPrefix(before, list, matches);
      CallsStartAtExamined(calls, matches, n);
      HonestStep(calls[n], Examined(before), list);
    }
  }

  lemma HonestStep(call: Call, before: seq<Mail>, list: seq<Mail>)
    requires HonestCall(call, list) && call.start == |before| <= |list| && before == list[..|before|]
    ensures |before + PageItems(call)| <= |list| && before + PageItems(call) == list[..|before + PageItems(call)|]
  {
  }

  lemma WholeList(all: seq<Mail>, list: seq<Mail>)
    requires |all| == |list| && all == list[..|all|]
    ensures all == list
  {
  }

  /** Whatever page sizes an honest server picks, a complete search is the filter of the whole list. */
  lemma CompleteMeansAll(calls: seq<Call>, list: seq<Mail>, matches: Filters)
    requires Made(calls, matches) && Honest(calls, list) && !After(calls, matches).Failed?
    requires After(calls, matches).search.complete
    ensures After(calls, matches).search.items == Matching(list, matches)
    ensures After(calls, matches).search.examined == |list|
  {
    CoverageIsSound(calls, matches);
    HonestPrefix(calls, list, matches);
    WholeList(Examined(calls), list);
  }

  /** Where a search of full pages stands after some calls. */
  ghost predicate Standing(p: Progress, calls: nat, list: seq<Mail>) {
    && !p.Failed?
    && (p.Going? ==> p.search.start == PAGE * calls <= |list|)
    && (p.Done? ==> p.search.complete && calls > 0 && PAGE * (calls - 1) <= |list| < PAGE * calls)
  }

  lemma {:induction false} FullProgress(calls: seq<Call>, list: seq<Mail>, matches: Filters)
    requires Made(calls, matches) && Honest(calls, list) && Full(calls, list) && Distinct(list)
    ensures Standing(After(calls, matches), |calls|, list)
  {
    if calls != [] {
      var n := |calls| - 1;
      var before := calls[..n];
      FullProgress(before, list, matches);
      assert HonestCall(calls[n], list) && FullCall(calls[n], list);
      AfterSound(before, matches);
      HonestPrefix(before, list, matches);
      FullStep(After(before, matches).search, Examined(before), n, calls[n], list, matches);
    }
  }

  lemma FullStep(s: Search, before: seq<Mail>, calls: nat, call: Call, list: seq<Mail>, matches: Filters)
    requires Tells(s, before, matches) && Distinct(list) && |before| <= |list| && before == list[..|before|]
    requires s.start == |before| == PAGE * calls && call.start == s.start
    requires HonestCall(call, list) && FullCall(call, list)
    ensures Standing(Consume(s, call.answer, matches), calls + 1, list)
  {
    var page := call.answer.value;
    var s' := s.(calls := s.calls + 1, estimatedTotal := Either(page.total, s.estimatedTotal));
    FullExamined(s', before, page.items, list, matches);
  }

  lemma FullExamined(s: Search, before: seq<Mail>, mails: seq<Mail>, list: seq<Mail>, matches: Filters)
    requires Tells(s, before, matches) && Distinct(list) && |before| + |mails| <= |list|
    requires before == list[..|before|] && mails == list[|before|..|before| + |mails|]
    ensures Examine(s, mails, matches).Some? && SameFrame(s, Examine(s, mails, matches).value)
  {
    ExamineTells(s, before, mails, matches);
    assert before + mails == list[..|before| + |mails|];
  }

  /**
   Against a stable honest list in full pages the search never fails, and once it has stopped it claims
   completeness exactly when the list has fewer than a thousand items; then it made |list| / 100 + 1 calls
   and returned the filter of the whole list.
   */
  lemma CompleteIffUnderThousand(calls: seq<Call>, list: seq<Mail>, matches: Filters)
    requires Made(calls, matches) && Honest(calls, list) && Full(calls, list) && Distinct(list)
    requires After(calls, matches).Going? ==> |calls| == CALLS
    ensures !After(calls, matches).Failed?
    ensures After(calls, matches).search.complete <==> |list| < 1000
    ensures |list| < 1000 ==> |calls| == |list| / 100 + 1 && After(calls, matches).search.items == Matching(list, matches)
  {
    FullProgress(calls, list, matches);
    AfterSound(calls, matches);
    if After(calls, matches).search.complete {
      CompleteMeansAll(calls, list, matches);
    }
  }
}
