/** The HTTP client double: registered handlers, and a ledger of the calls they answered. */
module MockHttp {
  import opened Wrappers

  datatype Handler<!Req, Res> = Handler(matcher: Req -> bool, respond: Req -> Res)

  datatype Call<Req> = Call(req: Req, count: nat)

  datatype MockError = ResponseNotSet

  /** The first handler that matches. */
  function FirstMatch<Req, Res>(handlers: seq<Handler<Req, Res>>, req: Req): (r: Option<nat>)
    ensures r.Some? ==> r.value < |handlers| && handlers[r.value].matcher(req)
    ensures forall i | 0 <= i < |handlers| && handlers[i].matcher(req) :: r.Some? && r.value <= i
  {
    if handlers == [] then None
    else if handlers[0].matcher(req) then Some(0)
    else
      match FirstMatch(handlers[1..], req)
      case None =>
        assert forall i | 1 <= i < |handlers| :: handlers[i] == handlers[1..][i - 1];
        None
      case Some(i) =>
        assert forall j | 1 <= j < |handlers| :: handlers[j] == handlers[1..][j - 1];
        Some(i + 1)
  }

  /** The first entry for a request of the same class. */
  function FirstEntry<Req>(eq: (Req, Req) -> bool, calls: seq<Call<Req>>, req: Req): (r: Option<nat>)
    ensures r.Some? ==> r.value < |calls| && eq(calls[r.value].req, req)
    ensures r.None? ==> forall i | 0 <= i < |calls| :: !eq(calls[i].req, req)
  {
    if calls == [] then None
    else if eq(calls[0].req, req) then Some(0)
    else
      match FirstEntry(eq, calls[1..], req)
      case None =>
        assert forall i | 1 <= i < |calls| :: calls[i] == calls[1..][i - 1];
        None
      case Some(i) => Some(i + 1)
  }

  /** The ledger after one more answered request. */
  function Record<Req>(eq: (Req, Req) -> bool, calls: seq<Call<Req>>, req: Req): seq<Call<Req>> {
    match FirstEntry(eq, calls, req)
    case Some(i) => calls[i := Call(calls[i].req, calls[i].count + 1)]
    case None => calls + [Call(req, 1)]
  }

  function RecordAll<Req>(eq: (Req, Req) -> bool, reqs: seq<Req>): seq<Call<Req>> {
    if reqs == [] then [] else Record(eq, RecordAll(eq, reqs[..|reqs| - 1]), reqs[|reqs| - 1])
  }

  /** `execute` as a function of the ledger. */
  function Answer<Req, Res>(
      handlers: seq<Handler<Req, Res>>, eq: (Req, Req) -> bool, calls: seq<Call<Req>>, req: Req)
    : (Result<Res, MockError>, seq<Call<Req>>)
  {
    match FirstMatch(handlers, req)
    case Some(i) => (Ok(handlers[i].respond(req)), Record(eq, calls, req))
    case None => (Err(ResponseNotSet), calls)
  }

  class MockClient<Req, Res> {
    const reqEq: (Req, Req) -> bool
    var handlers: seq<Handler<Req, Res>>
    var calls: seq<Call<Req>>
    /** Every request a handler answered, oldest first. */
    ghost var answered: seq<Req>

    ghost predicate Valid()
      reads this
    {
      calls == RecordAll(reqEq, answered)
    }

    constructor (reqEq: (Req, Req) -> bool)
      ensures Valid() && handlers == [] && calls == [] && answered == [] && this.reqEq == reqEq
    {
      this.reqEq := reqEq;
      handlers, calls, answered := [], [], [];
    }

    /** `when(matcher).then(respond)` */
    method RegisterHandler(matcher: Req -> bool, respond: Req -> Res)
      requires Valid()
      modifies this`handlers
      ensures Valid() && handlers == old(handlers) + [Handler(matcher, respond)]
    {
      handlers := handlers + [Handler(matcher, respond)];
    }

    method Execute(req: Req) returns (r: Result<Res, MockError>)
      requires Valid()
      modifies this`calls, this`answered
      ensures Valid()
      ensures (r, calls) == Answer(handlers, reqEq, old(calls), req)
      ensures answered == if r.Ok? then old(answered) + [req] else old(answered)
    {
      var handler := FirstMatch(handlers, req);
      match handler
      case Some(h) =>
        r := Ok(handlers[h].respond(req));
        var call := FirstEntry(reqEq, calls, req);
        match call {
          case Some(i) => calls := calls[i := Call(calls[i].req, calls[i].count + 1)];
          case None => calls := calls + [Call(req, 1)];
        }
        answered := answered + [req];
        assert answered[..|answered| - 1] == old(answered);
      case None =>
        r := Err(ResponseNotSet);
    }
  }

  // ----- the ledger is exact

  predicate Symmetric<Req>(eq: (Req, Req) -> bool, a: Req, b: Req) {
    eq(a, b) ==> eq(b, a)
  }

  predicate Transitive<Req>(eq: (Req, Req) -> bool, a: Req, b: Req, c: Req) {
    eq(a, b) && eq(b, c) ==> eq(a, c)
  }

  ghost predicate Equivalence<Req(!new)>(eq: (Req, Req) -> bool) {
    && (forall a :: eq(a, a))
    && (forall a, b :: Symmetric(eq, a, b))
    && (forall a, b, c :: Transitive(eq, a, b, c))
  }

  /** How many of the requests are of the class of `r`. */
  function CountOf<Req>(eq: (Req, Req) -> bool, reqs: seq<Req>, r: Req): nat {
    if reqs == [] then 0
    else CountOf(eq, reqs[..|reqs| - 1], r) + if eq(r, reqs[|reqs| - 1]) then 1 else 0
  }

  function Total<Req>(calls: seq<Call<Req>>): nat {
    if calls == [] then 0 else Total(calls[..|calls| - 1]) + calls[|calls| - 1].count
  }

  lemma {:induction false} TotalAfterBump<Req>(calls: seq<Call<Req>>, i: nat)
    requires i < |calls|
    ensures Total(calls[i := Call(calls[i].req, calls[i].count + 1)]) == Total(calls) + 1
  {
    var bumped := calls[i := Call(calls[i].req, calls[i].count + 1)];
    var n := |calls| - 1;
    if i == n {
      assert bumped[..n] == calls[..n];
    } else {
      TotalAfterBump(calls[..n], i);
      assert bumped[..n] == calls[..n][i := Call(calls[i].req, calls[i].count + 1)];
    }
  }

  lemma {:induction false} CountOfClass<Req(!new)>(eq: (Req, Req) -> bool, reqs: seq<Req>, r: Req)
    requires Equivalence(eq) && forall q | q in reqs :: !eq(q, r)
    ensures CountOf(eq, reqs, r) == 0
  {
    if reqs != [] {
      assert Symmetric(eq, r, reqs[|reqs| - 1]) && reqs[|reqs| - 1] in reqs;
      CountOfClass(eq, reqs[..|reqs| - 1], r);
    }
  }

  ghost predicate Distinct<Req>(eq: (Req, Req) -> bool, calls: seq<Call<Req>>) {
    forall i, j | 0 <= i < j < |calls| :: !eq(calls[i].req, calls[j].req)
  }

  /** An entry is for some answered request and counts its class. */
  ghost predicate EntryOk<Req(!new)>(eq: (Req, Req) -> bool, reqs: seq<Req>, c: Call<Req>) {
    c.req in reqs && c.count == CountOf(eq, reqs, c.req)
  }

  ghost predicate HasEntry<Req>(eq: (Req, Req) -> bool, calls: seq<Call<Req>>, q: Req) {
    exists i :: 0 <= i < |calls| && eq(calls[i].req, q)
  }

  /** Of each class of answered requests there is one entry, and it counts them. */
  ghost predicate LedgerOk<Req(!new)>(eq: (Req, Req) -> bool, reqs: seq<Req>, calls: seq<Call<Req>>) {
    Distinct(eq, calls) &&
    forall i {:trigger EntryOk(eq, reqs, calls[i])} | 0 <= i < |calls| :: EntryOk(eq, reqs, calls[i])
  }

  lemma EntryAfter<Req(!new)>(eq: (Req, Req) -> bool, reqs: seq<Req>, req: Req, c: Call<Req>)
    requires EntryOk(eq, reqs, c)
    ensures EntryOk(eq, reqs + [req], if eq(c.req, req) then Call(c.req, c.count + 1) else c)
  {
    assert (reqs + [req])[..|reqs|] == reqs;
  }

  lemma BumpKeepsLedger<Req(!new)>(eq: (Req, Req) -> bool, reqs: seq<Req>, calls: seq<Call<Req>>, i: nat, req: Req)
    requires Equivalence(eq) && LedgerOk(eq, reqs, calls)
    requires i < |calls| && eq(calls[i].req, req)
    ensures var calls' := calls[i := Call(calls[i].req, calls[i].count + 1)];
            LedgerOk(eq, reqs + [req], calls')
  {
    var calls' := calls[i := Call(calls[i].req, calls[i].count + 1)];
    forall j | 0 <= j < |calls'| ensures EntryOk(eq, reqs + [req], calls'[j]) {
      EntryAfter(eq, reqs, req, calls[j]);
      if j < i {
        assert !eq(calls[j].req, calls[i].req);
        assert Symmetric(eq, calls[i].req, req) && Transitive(eq, calls[j].req, req, calls[i].req);
      } else if j > i {
        assert !eq(calls[i].req, calls[j].req);
        assert Symmetric(eq, calls[j].req, req) && Transitive(eq, calls[i].req, req, calls[j].req);
      }
    }
  }

  lemma NoneOfClass<Req(!new)>(eq: (Req, Req) -> bool, reqs: seq<Req>, calls: seq<Call<Req>>, req: Req)
    requires Equivalence(eq)
    requires forall j | 0 <= j < |calls| :: !eq(calls[j].req, req)
    requires forall q | q in reqs :: HasEntry(eq, calls, q)
    ensures forall q | q in reqs :: !eq(q, req)
  {
    forall q | q in reqs ensures !eq(q, req) {
      assert HasEntry(eq, calls, q);
      var j :| 0 <= j < |calls| && eq(calls[j].req, q);
      assert !eq(calls[j].req, req) && Transitive(eq, calls[j].req, q, req);
    }
  }

  lemma NewEntryKeepsLedger<Req(!new)>(eq: (Req, Req) -> bool, reqs: seq<Req>, calls: seq<Call<Req>>, req: Req)
    requires Equivalence(eq) && LedgerOk(eq, reqs, calls)
    requires forall j | 0 <= j < |calls| :: !eq(calls[j].req, req)
    requires forall q | q in reqs :: HasEntry(eq, calls, q)
    ensures var calls' := calls + [Call(req, 1)];
            LedgerOk(eq, reqs + [req], calls')
  {
    NoneOfClass(eq, reqs, calls, req);
    CountOfClass(eq, reqs, req);
    assert (reqs + [req])[..|reqs|] == reqs;
    var calls' := calls + [Call(req, 1)];
    forall j | 0 <= j < |calls'| ensures EntryOk(eq, reqs + [req], calls'[j]) {
      if j < |calls| {
        EntryAfter(eq, reqs, req, calls[j]);
      }
    }
  }

  lemma {:induction false} CountsAddUp<Req>(eq: (Req, Req) -> bool, reqs: seq<Req>)
    ensures Total(RecordAll(eq, reqs)) == |reqs|
  {
    if reqs != [] {
      var n := |reqs| - 1;
      var calls := RecordAll(eq, reqs[..n]);
      CountsAddUp(eq, reqs[..n]);
      match FirstEntry(eq, calls, reqs[n])
      case Some(i) => TotalAfterBump(calls, i);
      case None => assert (calls + [Call(reqs[n], 1)])[..|calls|] == calls;
    }
  }

  lemma {:induction false} EveryRequestHasEntry<Req(!new)>(eq: (Req, Req) -> bool, reqs: seq<Req>, q: Req)
    requires Equivalence(eq) && q in reqs
    ensures HasEntry(eq, RecordAll(eq, reqs), q)
  {
    var n := |reqs| - 1;
    var calls, calls' := RecordAll(eq, reqs[..n]), RecordAll(eq, reqs);
    assert |calls| <= |calls'| && forall i | 0 <= i < |calls| :: calls'[i].req == calls[i].req;
    if q in reqs[..n] {
      EveryRequestHasEntry(eq, reqs[..n], q);
      var i :| 0 <= i < |calls| && eq(calls[i].req, q);
      assert calls'[i].req == calls[i].req;
    } else {
      assert q == reqs[n];
      match FirstEntry(eq, calls, q)
      case Some(i) => assert eq(calls'[i].req, q);
      case None => assert eq(calls'[|calls|].req, q);
    }
  }

  lemma RecordKeepsLedger<Req(!new)>(eq: (Req, Req) -> bool, reqs: seq<Req>, calls: seq<Call<Req>>, req: Req)
    requires Equivalence(eq) && LedgerOk(eq, reqs, calls)
    requires forall q | q in reqs :: HasEntry(eq, calls, q)
    ensures LedgerOk(eq, reqs + [req], Record(eq, calls, req))
  {
    match FirstEntry(eq, calls, req)
    case Some(i) => BumpKeepsLedger(eq, reqs, calls, i, req);
    case None => NewEntryKeepsLedger(eq, reqs, calls, req);
  }

  lemma RequestsHaveEntries<Req(!new)>(eq: (Req, Req) -> bool, reqs: seq<Req>)
    requires Equivalence(eq)
    ensures forall q | q in reqs :: HasEntry(eq, RecordAll(eq, reqs), q)
  {
    forall q | q in reqs ensures HasEntry(eq, RecordAll(eq, reqs), q) {
      EveryRequestHasEntry(eq, reqs, q);
    }
  }

  lemma {:induction false} EntriesAreExact<Req(!new)>(eq: (Req, Req) -> bool, reqs: seq<Req>)
    requires Equivalence(eq)
    ensures LedgerOk(eq, reqs, RecordAll(eq, reqs))
  {
    if reqs != [] {
      var before, req := reqs[..|reqs| - 1], reqs[|reqs| - 1];
      EntriesAreExact(eq, before);
      RequestsHaveEntries(eq, before);
      RecordKeepsLedger(eq, before, RecordAll(eq, before), req);
      RecordSnoc(eq, before, req);
      assert before + [req] == reqs;
    }
  }

  lemma RecordSnoc<Req>(eq: (Req, Req) -> bool, reqs: seq<Req>, req: Req)
    ensures RecordAll(eq, reqs + [req]) == Record(eq, RecordAll(eq, reqs), req)
  {
    assert (reqs + [req])[..|reqs + [req]| - 1] == reqs;
  }

  /** After any sequence of answered requests the ledger has one entry per class, with the
      number of answered requests of that class as its count, and the counts add up. */
  lemma LedgerIsExact<Req(!new)>(eq: (Req, Req) -> bool, reqs: seq<Req>)
    requires Equivalence(eq)
    ensures var calls := RecordAll(eq, reqs);
            && LedgerOk(eq, reqs, calls)
            && (forall q | q in reqs :: HasEntry(eq, calls, q))
            && Total(calls) == |reqs|
  {
    CountsAddUp(eq, reqs);
    RequestsHaveEntries(eq, reqs);
    EntriesAreExact(eq, reqs);
  }
}
