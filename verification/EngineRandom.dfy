/**
 Where the bytes of a random request come from: a history of the controller's random data, split by
 the request that was at the head when they arrived.
 */
module EngineRandom {
  import opened Bytes
  import opened CryptoQueue
  import Ccm = CcmMachine
  import Cmac = CmacMachine

  /** done: what arrived during each completed request. current: what has arrived since. */
  datatype Heard = Heard(done: seq<seq<byte>>, current: seq<byte>)

  function Data(event: Event): seq<byte> {
    if event.RandomBytes? then event.data else []
  }

  /** A step that completes a request closes its share of the history. */
  function Hear(e: Engine, after: Engine, event: Event, h: Heard): Heard {
    var current := h.current + Data(event);
    if |after.completed| > |e.completed| then Heard(h.done + [current], []) else Heard(h.done, current)
  }

  ghost function History(mode: Mode, E: Cipher, e: Engine, events: seq<Event>, h: Heard): Heard
    requires ValidRun(mode, E, e, events)
    decreases |events|
  {
    if events == [] then h
    else
      var after := Step(mode, E, e, events[0]);
      History(mode, E, after, events[1..], Hear(e, after, events[0], h))
  }

  // ----- the history is a history -----

  function AllData(events: seq<Event>): seq<byte> {
    if events == [] then [] else Data(events[0]) + AllData(events[1..])
  }

  function Concat(parts: seq<seq<byte>>): seq<byte> {
    if parts == [] then [] else Concat(parts[..|parts| - 1]) + parts[|parts| - 1]
  }

  /** Nothing is lost, repeated or reordered: the shares make up the data that arrived. */
  lemma {:induction false} HistoryAccounts(mode: Mode, E: Cipher, e: Engine, events: seq<Event>, h: Heard)
    requires ValidRun(mode, E, e, events)
    ensures var all := History(mode, E, e, events, h);
            Concat(all.done) + all.current == Concat(h.done) + h.current + AllData(events)
    decreases |events|
  {
    hide Step, Enabled;
    var all := History(mode, E, e, events, h);
    if events == [] {
      assert Concat(h.done) + h.current + [] == Concat(h.done) + h.current;
    } else {
      var after := Step(mode, E, e, events[0]);
      var next := Hear(e, after, events[0], h);
      HearAccounts(e, after, events[0], h);
      HistoryAccounts(mode, E, after, events[1..], next);
      var before, arrived, rest := Concat(h.done) + h.current, Data(events[0]), AllData(events[1..]);
      assert before + arrived + rest == before + (arrived + rest);
    }
  }

  lemma HearAccounts(e: Engine, after: Engine, event: Event, h: Heard)
    ensures var next := Hear(e, after, event, h);
            Concat(next.done) + next.current == Concat(h.done) + h.current + Data(event)
  {
    var current := h.current + Data(event);
    assert (h.done + [current])[..|h.done|] == h.done;
    assert Concat(h.done) + current == Concat(h.done) + h.current + Data(event);
    assert Concat(h.done) + current + [] == Concat(h.done) + current;
  }

  // ----- who gets what -----

  /** A completed random request holds the first bytes of its share; one at the head all of it so far. */
  ghost predicate Fed(submitted: seq<Request>, e: Engine, h: Heard) {
    && |h.done| == |e.completed| <= |submitted|
    && (forall i :: 0 <= i < |e.completed| ==> FedOne(submitted[i], e.completed[i], h.done[i]))
    && (if e.operations == [] then h.current == []
        else e.operations[0].Random? ==> e.operations[0].buffer == h.current)
  }

  /** The request asked for size bytes and got the first ones that arrived. */
  predicate FedOne(submitted: Request, r: Request, share: seq<byte>) {
    submitted.Random? ==> r.Random? && submitted.size <= |share| && r.buffer == share[..submitted.size]
  }

  /** After the head has completed: the next request, if any, has heard nothing yet. */
  lemma CompletionFeeds(
    mode: Mode, E: Cipher, e: Engine, after: Engine, submitted: seq<Request>, owed: nat, h: Heard, event: Event, r: Request)
    requires Invariant(mode, E, e, submitted, owed) && e.operations != [] && Fed(submitted, e, h)
    requires after.operations == e.operations[1..] && after.completed == e.completed + [r]
    requires FedOne(submitted[|e.completed|], r, h.current + Data(event))
    ensures Fed(submitted, after, Hear(e, after, event, h))
  {
    hide InProgress, Correct, Total, Results;
    var done := |e.completed|;
    if after.operations != [] {
      assert after.operations[0] == submitted[done + 1] && Ready(submitted[done + 1]);
    }
  }

  lemma SubmitFeeds(e: Engine, submitted: seq<Request>, h: Heard, r: Request)
    requires Fed(submitted, e, h) && Ready(r)
    ensures Fed(submitted + [r], e.(operations := e.operations + [r]), Hear(e, e.(operations := e.operations + [r]), Submit(r), h))
  {
    assert h.current + [] == h.current;
  }

  /** At the head of a reachable state, the kind of the request is the one submitted. */
  lemma HeadKind(mode: Mode, E: Cipher, e: Engine, submitted: seq<Request>, owed: nat)
    requires Invariant(mode, E, e, submitted, owed) && e.operations != []
    ensures |e.completed| < |submitted|
    ensures var head, s := e.operations[0], submitted[|e.completed|];
            && (head.Random? <==> s.Random?)
            && (head.Random? ==> |head.buffer| + head.size == s.size && (e.waitForHciResult ==> e.outstanding == [LeRand]))
            && (!head.Random? && e.outstanding != [] ==> e.outstanding[0].LeEncrypt?)
  {
    hide Ccm.RunCall, Ccm.Work, Ccm.CallOk, Ccm.Calculating, Cmac.Working, Total, Correct;
  }

  lemma TickFeeds(mode: Mode, E: Cipher, e: Engine, submitted: seq<Request>, owed: nat, h: Heard)
    requires Invariant(mode, E, e, submitted, owed) && Fed(submitted, e, h) && HeadOk(mode, e)
    ensures Fed(submitted, Tick(mode, E, e), Hear(e, Tick(mode, E, e), Iterate, h))
  {
    hide Invariant, Ccm.Absorb, Ccm.Work, Cmac.EngineReady, FedOne, CryptoQueue.Flip;
    HeadKind(mode, E, e, submitted, owed);
    var after := Tick(mode, E, e);
    assert h.current + [] == h.current;
    if |after.completed| > |e.completed| {
      var r := after.completed[|e.completed|];
      NotRandomFed(submitted[|e.completed|], r, h.current + Data(Iterate));
      CompletionFeeds(mode, E, e, after, submitted, owed, h, Iterate, r);
    }
  }

  lemma NotRandomFed(s: Request, r: Request, share: seq<byte>)
    requires !s.Random?
    ensures FedOne(s, r, share)
  {
  }

  lemma EncryptedFeeds(mode: Mode, E: Cipher, e: Engine, submitted: seq<Request>, owed: nat, h: Heard, result: Block)
    requires Invariant(mode, E, e, submitted, owed) && Fed(submitted, e, h) && Enabled(mode, E, e, Encrypted(result))
    ensures var after := Step(mode, E, e, Encrypted(result));
            Fed(submitted, after, Hear(e, after, Encrypted(result), h))
  {
    hide Invariant, Ccm.Absorb, Ccm.Work, Cmac.Result, FedOne, CryptoQueue.Flip;
    var after := Step(mode, E, e, Encrypted(result));
    assert h.current + [] == h.current;
    if e.operations != [] {
      HeadKind(mode, E, e, submitted, owed);
      if |after.completed| > |e.completed| {
        var r := after.completed[|e.completed|];
        NotRandomFed(submitted[|e.completed|], r, h.current + Data(Encrypted(result)));
        CompletionFeeds(mode, E, e, after, submitted, owed, h, Encrypted(result), r);
      }
    }
  }

  /** The answer goes to the request at the head, appended to what it has, as far as it still wants bytes. */
  lemma RandomFeeds(mode: Mode, E: Cipher, e: Engine, submitted: seq<Request>, owed: nat, h: Heard, data: seq<byte>)
    requires Invariant(mode, E, e, submitted, owed) && Fed(submitted, e, h) && Enabled(mode, E, e, RandomBytes(data))
    ensures var after := Step(mode, E, e, RandomBytes(data));
            Fed(submitted, after, Hear(e, after, RandomBytes(data), h))
  {
    hide Invariant;
    var event := RandomBytes(data);
    var after := Step(mode, E, e, event);
    if e.operations == [] {
      NothingAwaited(mode, E, e, submitted, owed);
    } else {
      HeadKind(mode, E, e, submitted, owed);
      var head := e.operations[0];
      var n := Min(head.size, |data|);
      assert (h.current + data)[..|head.buffer| + n] == head.buffer + data[..n];
      if head.size <= |data| {
        CompletionFeeds(mode, E, e, after, submitted, owed, h, event, after.completed[|e.completed|]);
      } else {
        assert data[..n] == data;
      }
    }
  }

  lemma NothingAwaited(mode: Mode, E: Cipher, e: Engine, submitted: seq<Request>, owed: nat)
    requires Invariant(mode, E, e, submitted, owed) && e.operations == []
    ensures !e.waitForHciResult
  {
    hide Correct, Total;
  }

  lemma SubmittedFirst(submitted: seq<Request>, events: seq<Event>)
    requires events != []
    ensures submitted + Submitted(events)
            == (if events[0].Submit? then submitted + [events[0].r] else submitted) + Submitted(events[1..])
  {
  }

  lemma {:induction false} RunFeeds(
    mode: Mode, E: Cipher, e: Engine, events: seq<Event>, submitted: seq<Request>, owed: nat, h: Heard)
    requires ValidRun(mode, E, e, events) && Invariant(mode, E, e, submitted, owed) && Fed(submitted, e, h)
    ensures Fed(submitted + Submitted(events), After(mode, E, e, events), History(mode, E, e, events, h))
    decreases |events|
  {
    hide Invariant, Enabled, Step, Results, Ready, Fed, Hear;
    if events == [] {
      assert submitted + [] == submitted;
    } else {
      hide Submitted;
      var event, rest := events[0], events[1..];
      StepKeeps(mode, E, e, submitted, owed, event);
      StepFeeds(mode, E, e, submitted, owed, h, event);
      var after := Step(mode, E, e, event);
      var next := Hear(e, after, event, h);
      if event.Submit? {
        SubmittedFirst(submitted, events);
        RunFeeds(mode, E, after, rest, submitted + [event.r], owed + Results(mode, event.r), next);
      } else {
        SubmittedFirst(submitted, events);
        RunFeeds(mode, E, after, rest, submitted, if event == Iterate then owed else owed - 1, next);
      }
    }
  }

  lemma StepFeeds(mode: Mode, E: Cipher, e: Engine, submitted: seq<Request>, owed: nat, h: Heard, event: Event)
    requires Invariant(mode, E, e, submitted, owed) && Enabled(mode, E, e, event) && Fed(submitted, e, h)
    ensures var after := Step(mode, E, e, event);
            Fed(if event.Submit? then submitted + [event.r] else submitted, after, Hear(e, after, event, h))
  {
    hide Invariant, Fed, Hear, Tick, EncryptionResult, RandomData, Ready;
    match event
    case Submit(r) => SubmitFeeds(e, submitted, h, r);
    case Iterate => TickFeeds(mode, E, e, submitted, owed, h);
    case Encrypted(result) => EncryptedFeeds(mode, E, e, submitted, owed, h, result);
    case RandomBytes(data) => RandomFeeds(mode, E, e, submitted, owed, h, data);
  }

  /**
   Over every run from an idle engine: a completed random request holds exactly the first size bytes
   of the random data that arrived while it was at the head, in order; and these shares, together,
   are all the data that arrived.
   */
  lemma RandomSafety(mode: Mode, E: Cipher, c: Cmac.Cmac, events: seq<Event>)
    requires c.state == Cmac.Idle && ValidRun(mode, E, Idle(c), events)
    ensures var e, rs := After(mode, E, Idle(c), events), Submitted(events);
            var h := History(mode, E, Idle(c), events, Heard([], []));
            && |h.done| == |e.completed| <= |rs|
            && (forall i :: 0 <= i < |e.completed| && rs[i].Random? ==>
                  e.completed[i].Random? && rs[i].size <= |h.done[i]| && e.completed[i].buffer == h.done[i][..rs[i].size])
            && Concat(h.done) + h.current == AllData(events)
  {
    hide Invariant, After, ValidRun, Submitted, History;
    IdleKeeps(mode, E, c);
    RunFeeds(mode, E, Idle(c), events, [], 0, Heard([], []));
    assert [] + Submitted(events) == Submitted(events);
    HistoryAccounts(mode, E, Idle(c), events, Heard([], []));
    assert Concat([]) + [] + AllData(events) == AllData(events);
    var e, rs := After(mode, E, Idle(c), events), Submitted(events);
    var h := History(mode, E, Idle(c), events, Heard([], []));
    forall i | 0 <= i < |e.completed| && rs[i].Random?
      ensures e.completed[i].Random? && rs[i].size <= |h.done[i]| && e.completed[i].buffer == h.done[i][..rs[i].size]
    {
      assert FedOne(rs[i], e.completed[i], h.done[i]);
    }
  }
}
