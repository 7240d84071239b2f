/** Coalescing identical concurrent GETs: singleFlightGet of internal/api/proxy.go, as the interleaved atomic steps of
    any number of callers. */
module SingleFlight {
  import opened Wrappers

  type CallerId = nat
  type Response = string

  datatype Answer = Cancelled | Got(response: Response)

  /** Where a caller stands. A leader fetches, removes its table entry, and only then closes the channel. */
  datatype Phase =
    | Fetching
    | Fetched
    | Removed
    | Waiting
    | Returned(answer: Answer)

  /** A caller and the call it leads or joined. */
  datatype Caller = Caller(key: string, call: nat, phase: Phase)

  /** A shared call record: its result, and how often its channel was closed. */
  datatype Call = Call(key: string, leader: CallerId, result: Option<Response>, closed: nat)

  datatype State = State(callers: map<CallerId, Caller>, calls: seq<Call>, inflight: map<string, nat>)

  const START := State(map[], [], map[])

  /** One atomic step of one caller. Arriving is the lookup under the lock, which joins a call or leads a new one. */
  datatype Step =
    | Arrive(c: CallerId, key: string)
    | RoundTrip(c: CallerId, response: Response)
    | RemoveEntry(c: CallerId)
    | CloseDone(c: CallerId)
    | Wake(c: CallerId)
    | GiveUp(c: CallerId)

  predicate Enabled(s: State, a: Step) {
    match a
    case Arrive(c, _) => c !in s.callers
    case RoundTrip(c, _) => c in s.callers && s.callers[c].phase == Fetching
    case RemoveEntry(c) => c in s.callers && s.callers[c].phase == Fetched
    case CloseDone(c) =>
      c in s.callers && s.callers[c].phase == Removed && s.callers[c].call < |s.calls|
        && s.calls[s.callers[c].call].result.Some?
    case Wake(c) =>
      c in s.callers && s.callers[c].phase == Waiting && s.callers[c].call < |s.calls|
      && s.calls[s.callers[c].call].closed > 0 && s.calls[s.callers[c].call].result.Some?
    case GiveUp(c) => c in s.callers && s.callers[c].phase == Waiting
  }

  function WithPhase(s: State, c: CallerId, phase: Phase): State
    requires c in s.callers
  {
    s.(callers := s.callers[c := s.callers[c].(phase := phase)])
  }

  function Apply(s: State, a: Step): State
    requires Enabled(s, a)
  {
    match a
    case Arrive(c, key) =>
      if key in s.inflight then s.(callers := s.callers[c := Caller(key, s.inflight[key], Waiting)])
      else
        State(s.callers[c := Caller(key, |s.calls|, Fetching)], s.calls + [Call(key, c, None, 0)],
              s.inflight[key := |s.calls|])
    case RoundTrip(c, response) =>
      var k := s.callers[c].call;
      if k < |s.calls| then WithPhase(s, c, Fetched).(calls := s.calls[k := s.calls[k].(result := Some(response))])
      else WithPhase(s, c, Fetched)
    case RemoveEntry(c) => WithPhase(s, c, Removed).(inflight := s.inflight - {s.callers[c].key})
    case CloseDone(c) =>
      var k := s.callers[c].call;
      var call := s.calls[k];
      WithPhase(s, c, Returned(Got(call.result.value))).(calls := s.calls[k := call.(closed := call.closed + 1)])
    case Wake(c) => WithPhase(s, c, Returned(Got(s.calls[s.callers[c].call].result.value)))
    case GiveUp(c) => WithPhase(s, c, Returned(Cancelled))
  }

  // ---- the invariant ----

  predicate Leads(s: State, c: CallerId) {
    c in s.callers && s.callers[c].call < |s.calls| && s.calls[s.callers[c].call].leader == c
  }

  /** What a caller's phase says of its call. */
  predicate CallerFits(s: State, c: CallerId)
    requires c in s.callers
  {
    var p := s.callers[c];
    && p.call < |s.calls| && s.calls[p.call].key == p.key
    && match p.phase
       case Fetching =>
         Leads(s, c) && s.calls[p.call].result.None? && p.key in s.inflight && s.inflight[p.key] == p.call
       case Fetched =>
         Leads(s, c) && s.calls[p.call].result.Some? && p.key in s.inflight && s.inflight[p.key] == p.call
       case Removed => Leads(s, c) && s.calls[p.call].result.Some?
       case Waiting => !Leads(s, c)
       case Returned(Got(r)) => s.calls[p.call].result == Some(r) && s.calls[p.call].closed > 0
       case Returned(Cancelled) => !Leads(s, c)
  }

  /** Every call has the leader that made it, and is closed once that leader has returned and not before. */
  predicate CallFits(s: State, k: nat)
    requires k < |s.calls|
  {
    var call := s.calls[k];
    && call.leader in s.callers && s.callers[call.leader].call == k
    && call.closed == if s.callers[call.leader].phase.Returned? then 1 else 0
  }

  /** A table entry points to a call of that key whose leader has still to remove it. */
  predicate EntryFits(s: State, key: string)
    requires key in s.inflight
  {
    var k := s.inflight[key];
    && k < |s.calls| && s.calls[k].key == key && s.calls[k].leader in s.callers
    && (s.callers[s.calls[k].leader].phase == Fetching || s.callers[s.calls[k].leader].phase == Fetched)
    && s.callers[s.calls[k].leader].call == k
  }

  ghost predicate Inv(s: State) {
    && (forall c :: c in s.callers ==> CallerFits(s, c))
    && (forall k :: 0 <= k < |s.calls| ==> CallFits(s, k))
    && (forall key :: key in s.inflight ==> EntryFits(s, key))
  }

  lemma JoinKeepsInv(s: State, c: CallerId, key: string)
    requires Inv(s) && Enabled(s, Arrive(c, key)) && key in s.inflight
    ensures Inv(Apply(s, Arrive(c, key)))
  {
    var s' := Apply(s, Arrive(c, key));
    assert EntryFits(s, key);
    forall d | d in s'.callers
      ensures CallerFits(s', d)
    {
      assert d in s.callers ==> CallerFits(s, d);
    }
    forall k | 0 <= k < |s'.calls|
      ensures CallFits(s', k)
    {
      assert CallFits(s, k);
    }
    forall x | x in s'.inflight
      ensures EntryFits(s', x)
    {
      assert EntryFits(s, x);
    }
  }

  lemma LeadKeepsInv(s: State, c: CallerId, key: string)
    requires Inv(s) && Enabled(s, Arrive(c, key)) && key !in s.inflight
    ensures Inv(Apply(s, Arrive(c, key)))
  {
    var s' := Apply(s, Arrive(c, key));
    forall d | d in s'.callers
      ensures CallerFits(s', d)
    {
      assert d in s.callers ==> CallerFits(s, d);
    }
    forall k | 0 <= k < |s'.calls|
      ensures CallFits(s', k)
    {
      assert k < |s.calls| ==> CallFits(s, k);
    }
    forall x | x in s'.inflight
      ensures EntryFits(s', x)
    {
      assert x in s.inflight ==> EntryFits(s, x);
    }
  }

  lemma RoundTripKeepsInv(s: State, c: CallerId, response: Response)
    requires Inv(s) && Enabled(s, RoundTrip(c, response))
    ensures Inv(Apply(s, RoundTrip(c, response)))
  {
    var s' := Apply(s, RoundTrip(c, response));
    assert CallerFits(s, c) && CallFits(s, s.callers[c].call);
    forall d | d in s.callers
      ensures CallerFits(s', d)
    {
      RoundTripKeepsCaller(s, c, response, d);
    }
    forall k | 0 <= k < |s.calls|
      ensures CallFits(s', k)
    {
      RoundTripKeepsCall(s, c, response, k);
    }
    forall x | x in s.inflight
      ensures EntryFits(s', x)
    {
      RoundTripKeepsEntry(s, c, response, x);
    }
  }

  lemma RoundTripKeepsCaller(s: State, c: CallerId, response: Response, d: CallerId)
    requires Enabled(s, RoundTrip(c, response)) && CallerFits(s, c) && CallFits(s, s.callers[c].call)
    requires d in s.callers && CallerFits(s, d)
    ensures CallerFits(Apply(s, RoundTrip(c, response)), d)
  {
  }

  lemma RoundTripKeepsCall(s: State, c: CallerId, response: Response, k: nat)
    requires Enabled(s, RoundTrip(c, response)) && CallerFits(s, c) && k < |s.calls| && CallFits(s, k)
    ensures CallFits(Apply(s, RoundTrip(c, response)), k)
  {
  }

  lemma RoundTripKeepsEntry(s: State, c: CallerId, response: Response, key: string)
    requires Enabled(s, RoundTrip(c, response)) && CallerFits(s, c) && key in s.inflight && EntryFits(s, key)
    ensures EntryFits(Apply(s, RoundTrip(c, response)), key)
  {
  }

  lemma RemoveKeepsInv(s: State, c: CallerId)
    requires Inv(s) && Enabled(s, RemoveEntry(c))
    ensures Inv(Apply(s, RemoveEntry(c)))
  {
    var s' := Apply(s, RemoveEntry(c));
    assert CallerFits(s, c) && CallFits(s, s.callers[c].call);
    forall d | d in s.callers
      ensures CallerFits(s', d)
    {
      RemoveKeepsCaller(s, c, d);
    }
    forall k | 0 <= k < |s.calls|
      ensures CallFits(s', k)
    {
      RemoveKeepsCall(s, c, k);
    }
    forall x | x in s'.inflight
      ensures EntryFits(s', x)
    {
      RemoveKeepsEntry(s, c, x);
    }
  }

  lemma RemoveKeepsCaller(s: State, c: CallerId, d: CallerId)
    requires Enabled(s, RemoveEntry(c)) && CallerFits(s, c) && d in s.callers && CallerFits(s, d)
    ensures CallerFits(Apply(s, RemoveEntry(c)), d)
  {
  }

  lemma RemoveKeepsCall(s: State, c: CallerId, k: nat)
    requires Enabled(s, RemoveEntry(c)) && CallerFits(s, c) && k < |s.calls| && CallFits(s, k)
    ensures CallFits(Apply(s, RemoveEntry(c)), k)
  {
  }

  lemma RemoveKeepsEntry(s: State, c: CallerId, key: string)
    requires Enabled(s, RemoveEntry(c)) && CallerFits(s, c) && key in Apply(s, RemoveEntry(c)).inflight
             && EntryFits(s, key)
    ensures EntryFits(Apply(s, RemoveEntry(c)), key)
  {
  }

  lemma CloseKeepsInv(s: State, c: CallerId)
    requires Inv(s) && Enabled(s, CloseDone(c))
    ensures Inv(Apply(s, CloseDone(c)))
  {
    var s' := Apply(s, CloseDone(c));
    assert CallerFits(s, c) && CallFits(s, s.callers[c].call);
    forall d | d in s.callers
      ensures CallerFits(s', d)
    {
      CloseKeepsCaller(s, c, d);
    }
    forall k | 0 <= k < |s.calls|
      ensures CallFits(s', k)
    {
      CloseKeepsCall(s, c, k);
    }
    forall x | x in s'.inflight
      ensures EntryFits(s', x)
    {
      CloseKeepsEntry(s, c, x);
    }
  }

  lemma CloseKeepsCaller(s: State, c: CallerId, d: CallerId)
    requires Enabled(s, CloseDone(c)) && CallerFits(s, c) && CallFits(s, s.callers[c].call) && d in s.callers
             && CallerFits(s, d)
    ensures CallerFits(Apply(s, CloseDone(c)), d)
  {
  }

  lemma CloseKeepsCall(s: State, c: CallerId, k: nat)
    requires Enabled(s, CloseDone(c)) && CallerFits(s, c) && CallFits(s, s.callers[c].call) && k < |s.calls|
             && CallFits(s, k)
    ensures CallFits(Apply(s, CloseDone(c)), k)
  {
  }

  lemma CloseKeepsEntry(s: State, c: CallerId, key: string)
    requires Enabled(s, CloseDone(c)) && CallerFits(s, c) && key in Apply(s, CloseDone(c)).inflight && EntryFits(s, key)
    ensures EntryFits(Apply(s, CloseDone(c)), key)
  {
  }

  lemma LeaveKeepsInv(s: State, a: Step)
    requires Inv(s) && Enabled(s, a) && (a.Wake? || a.GiveUp?)
    ensures Inv(Apply(s, a))
  {
    var s' := Apply(s, a);
    forall d | d in s.callers
      ensures CallerFits(s', d)
    {
      LeaveKeepsCaller(s, a, d);
    }
    forall k | 0 <= k < |s.calls|
      ensures CallFits(s', k)
    {
      LeaveKeepsCall(s, a, k);
    }
    forall x | x in s.inflight
      ensures EntryFits(s', x)
    {
      LeaveKeepsEntry(s, a, x);
    }
  }

  lemma LeaveKeepsCaller(s: State, a: Step, d: CallerId)
    requires Enabled(s, a) && (a.Wake? || a.GiveUp?) && d in s.callers && CallerFits(s, d)
    ensures CallerFits(Apply(s, a), d)
  {
  }

  lemma LeaveKeepsCall(s: State, a: Step, k: nat)
    requires Enabled(s, a) && (a.Wake? || a.GiveUp?) && CallerFits(s, a.c) && k < |s.calls| && CallFits(s, k)
    ensures CallFits(Apply(s, a), k)
  {
  }

  lemma LeaveKeepsEntry(s: State, a: Step, key: string)
    requires Enabled(s, a) && (a.Wake? || a.GiveUp?) && key in s.inflight && EntryFits(s, key)
    ensures EntryFits(Apply(s, a), key)
  {
  }

  /** Every step of every caller keeps the invariant. */
  lemma StepKeepsInv(s: State, a: Step)
    requires Inv(s) && Enabled(s, a)
    ensures Inv(Apply(s, a))
  {
    if a.Arrive? {
      if a.key in s.inflight {
        JoinKeepsInv(s, a.c, a.key);
      } else {
        LeadKeepsInv(s, a.c, a.key);
      }
    } else if a.RoundTrip? {
      RoundTripKeepsInv(s, a.c, a.response);
    } else if a.RemoveEntry? {
      RemoveKeepsInv(s, a.c);
    } else if a.CloseDone? {
      CloseKeepsInv(s, a.c);
    } else {
      LeaveKeepsInv(s, a);
    }
  }

  // ---- all interleavings ----

  ghost predicate CanRun(s: State, steps: seq<Step>)
    decreases |steps|
  {
    steps == [] || (Enabled(s, steps[0]) && CanRun(Apply(s, steps[0]), steps[1..]))
  }

  ghost function After(s: State, steps: seq<Step>): State
    requires CanRun(s, steps)
    decreases |steps|
  {
    if steps == [] then s else After(Apply(s, steps[0]), steps[1..])
  }

  lemma {:induction false} RunKeepsInv(s: State, steps: seq<Step>)
    requires Inv(s) && CanRun(s, steps)
    ensures Inv(After(s, steps))
    decreases |steps|
  {
    if steps != [] {
      StepKeepsInv(s, steps[0]);
      RunKeepsInv(Apply(s, steps[0]), steps[1..]);
    }
  }

  /** Over all interleavings at most one upstream request per key is outstanding. */
  lemma OneRequestPerKey(steps: seq<Step>, c: CallerId, d: CallerId)
    requires CanRun(START, steps)
    requires var s := After(START, steps);
             c in s.callers && d in s.callers && s.callers[c].phase == Fetching && s.callers[d].phase == Fetching
             && s.callers[c].key == s.callers[d].key
    ensures c == d
  {
    RunKeepsInv(START, steps);
    var s := After(START, steps);
    assert CallerFits(s, c) && CallerFits(s, d);
  }

  /** A table entry always has a live leader, and the entry a leader removes is its own. */
  lemma LeadersOwnTheirEntries(steps: seq<Step>, c: CallerId)
    requires CanRun(START, steps)
    ensures var s := After(START, steps);
            && (forall key :: key in s.inflight ==> EntryFits(s, key))
            && (Enabled(s, RemoveEntry(c)) ==>
                  s.callers[c].key in s.inflight && s.inflight[s.callers[c].key] == s.callers[c].call && Leads(s, c))
  {
    RunKeepsInv(START, steps);
    var s := After(START, steps);
    if Enabled(s, RemoveEntry(c)) {
      assert CallerFits(s, c);
    }
  }

  /** The channel of a call is closed at most once, only after its result is written and its entry is gone. */
  lemma ClosedOnceAfterTheResult(steps: seq<Step>, k: nat)
    requires CanRun(START, steps) && k < |After(START, steps).calls|
    ensures var s := After(START, steps); var call := s.calls[k];
            && call.closed <= 1
            && (call.closed == 1 ==> call.result.Some? && (call.key in s.inflight ==> s.inflight[call.key] != k))
  {
    RunKeepsInv(START, steps);
    var s := After(START, steps);
    assert CallFits(s, k);
    assert CallerFits(s, s.calls[k].leader);
    if s.calls[k].key in s.inflight {
      assert EntryFits(s, s.calls[k].key);
    }
  }

  /** Nobody waits for a leader that is gone: a call not yet closed has a leader with a step to take. */
  lemma WaitersAreNotStranded(steps: seq<Step>, c: CallerId)
    requires CanRun(START, steps)
    requires var s := After(START, steps); c in s.callers && s.callers[c].phase == Waiting
    ensures var s := After(START, steps); var k := s.callers[c].call;
            && k < |s.calls|
            && (Enabled(s, Wake(c))
                || exists a ::
                     Enabled(s, a) && a.c == s.calls[k].leader && (a.RoundTrip? || a.RemoveEntry? || a.CloseDone?))
  {
    RunKeepsInv(START, steps);
    var s := After(START, steps);
    assert CallerFits(s, c);
    var k := s.callers[c].call;
    assert CallFits(s, k);
    var leader := s.calls[k].leader;
    assert CallerFits(s, leader);
    match s.callers[leader].phase
    case Fetching => assert Enabled(s, RoundTrip(leader, ""));
    case Fetched => assert Enabled(s, RemoveEntry(leader));
    case Removed => assert Enabled(s, CloseDone(leader));
    case Returned(_) => assert Enabled(s, Wake(c));
    case Waiting =>
  }

  // ---- what a caller is answered ----

  /** From one state on, a caller's key and call never change, and a written result stays. */
  lemma {:induction false} CallsAreStable(s: State, steps: seq<Step>, c: CallerId)
    requires Inv(s) && CanRun(s, steps) && c in s.callers
    ensures var end := After(s, steps);
            && c in end.callers && end.callers[c].key == s.callers[c].key && end.callers[c].call == s.callers[c].call
            && |s.calls| <= |end.calls|
            && forall k :: 0 <= k < |s.calls| ==>
                 end.calls[k].key == s.calls[k].key
                   && (s.calls[k].result.Some? ==> end.calls[k].result == s.calls[k].result)
    decreases |steps|
  {
    if steps != [] {
      StepKeepsInv(s, steps[0]);
      StepIsStable(s, steps[0]);
      CallsAreStable(Apply(s, steps[0]), steps[1..], c);
    }
  }

  lemma StepIsStable(s: State, a: Step)
    requires Inv(s) && Enabled(s, a)
    ensures var s' := Apply(s, a);
            && (forall c :: c in s.callers ==>
                  c in s'.callers && s'.callers[c].key == s.callers[c].key && s'.callers[c].call == s.callers[c].call)
            && |s.calls| <= |s'.calls|
            && forall k :: 0 <= k < |s.calls| ==>
                 s'.calls[k].key == s.calls[k].key
                   && (s.calls[k].result.Some? ==> s'.calls[k].result == s.calls[k].result)
  {
    if a.RoundTrip? {
      assert CallerFits(s, a.c);
    }
  }

  /** A caller returns its own cancellation, or the result of the call that was in the table for its key when it
      arrived: one already being made, or the one it led. No earlier result can reach it. */
  lemma AnswersAreFromTheCallInTheTable(before: seq<Step>, c: CallerId, key: string, after: seq<Step>)
    requires CanRun(START, before) && Enabled(After(START, before), Arrive(c, key))
    requires CanRun(Apply(After(START, before), Arrive(c, key)), after)
    ensures var s := Apply(After(START, before), Arrive(c, key));
            var end := After(s, after);
            && key in s.inflight && c in end.callers
            && var k := s.inflight[key];
            && k < |end.calls| && end.calls[k].key == key
            && (end.callers[c].phase.Returned? ==>
                  end.callers[c].phase.answer == Cancelled
                  || (end.calls[k].result.Some? && end.callers[c].phase.answer == Got(end.calls[k].result.value)))
  {
    RunKeepsInv(START, before);
    var s0 := After(START, before);
    StepKeepsInv(s0, Arrive(c, key));
    var s := Apply(s0, Arrive(c, key));
    CallsAreStable(s, after, c);
    RunKeepsInv(s, after);
    var end := After(s, after);
    assert EntryFits(s, key);
    assert CallerFits(end, c);
  }

  /** A leader is never cancelled: whoever makes the call gets its result. */
  lemma LeadersGetTheirResult(steps: seq<Step>, c: CallerId)
    requires CanRun(START, steps) && Leads(After(START, steps), c)
    ensures var p := After(START, steps).callers[c].phase; p.Returned? ==> p.answer.Got?
  {
    RunKeepsInv(START, steps);
    assert CallerFits(After(START, steps), c);
  }

  // ---- that something happens ----

  /** Nobody is held up: whoever has not come yet may come, whoever has not left has a step to take, and who waits may
      leave at any time, or with the answer once the channel is closed. */
  lemma NobodyIsHeldUp(steps: seq<Step>, c: CallerId, key: string, response: Response)
    requires CanRun(START, steps)
    ensures var s := After(START, steps);
            if c !in s.callers then Enabled(s, Arrive(c, key))
            else
              && s.callers[c].call < |s.calls|
              && match s.callers[c].phase
                 case Fetching => Enabled(s, RoundTrip(c, response))
                 case Fetched => Enabled(s, RemoveEntry(c))
                 case Removed => Enabled(s, CloseDone(c))
                 case Waiting =>
                   Enabled(s, GiveUp(c)) && (s.calls[s.callers[c].call].closed > 0 <==> Enabled(s, Wake(c)))
                 case Returned(_) => true
  {
    RunKeepsInv(START, steps);
    var s := After(START, steps);
    if c in s.callers {
      assert CallerFits(s, c);
      var k := s.callers[c].call;
      assert CallFits(s, k);
      assert CallerFits(s, s.calls[k].leader);
    }
  }

  /** Whoever comes while a request for the key is being made, or its answer still in the table, waits for that one. */
  lemma LateComersJoin(steps: seq<Step>, c: CallerId, d: CallerId)
    requires CanRun(START, steps)
    requires var s := After(START, steps);
             c in s.callers && (s.callers[c].phase == Fetching || s.callers[c].phase == Fetched) && d !in s.callers
    ensures var s := After(START, steps);
            && Enabled(s, Arrive(d, s.callers[c].key))
            && Apply(s, Arrive(d, s.callers[c].key)).callers[d] == Caller(s.callers[c].key, s.callers[c].call, Waiting)
  {
    RunKeepsInv(START, steps);
    assert CallerFits(After(START, steps), c);
  }

  function Finishing(c: CallerId, d: CallerId, response: Response): seq<Step> {
    [RoundTrip(c, response), RemoveEntry(c), CloseDone(c), Wake(d)]
  }

  /** The leader's steps lead to its answer, and whoever waits for the call then gets the same. */
  lemma WaitersGetTheLeadersAnswer(s: State, c: CallerId, d: CallerId, response: Response)
    requires Inv(s) && c in s.callers && s.callers[c].phase == Fetching
    requires d in s.callers && s.callers[d].phase == Waiting && s.callers[d].call == s.callers[c].call
    ensures CanRun(s, Finishing(c, d, response))
    ensures var end := After(s, Finishing(c, d, response));
            c in end.callers && end.callers[c].phase == Returned(Got(response))
            && d in end.callers && end.callers[d].phase == Returned(Got(response))
  {
    assert CallerFits(s, c);
    var s1 := Apply(s, RoundTrip(c, response));
    var s2 := Apply(s1, RemoveEntry(c));
    var s3 := Apply(s2, CloseDone(c));
    var s4 := Apply(s3, Wake(d));
    var steps := Finishing(c, d, response);
    assert steps[1..][1..] == steps[2..] && steps[2..][1..] == steps[3..] && steps[3..][1..] == [];
    assert CanRun(s4, steps[3..][1..]) && After(s4, []) == s4;
    assert CanRun(s3, steps[3..]) && After(s3, steps[3..]) == s4;
    assert CanRun(s2, steps[2..]) && After(s2, steps[2..]) == s4;
    assert CanRun(s1, steps[1..]) && After(s1, steps[1..]) == s4;
  }

  /** Who gives up is told so, and nobody else notices. */
  lemma GivingUpIsPrivate(s: State, c: CallerId)
    requires Inv(s) && c in s.callers && s.callers[c].phase == Waiting
    ensures Enabled(s, GiveUp(c))
    ensures Apply(s, GiveUp(c)) == s.(callers := s.callers[c := s.callers[c].(phase := Returned(Cancelled))])
  {
  }
}
