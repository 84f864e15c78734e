/**
 The keyword-settings save queue of frontend/src/keywordSettingsSaveQueue.ts as an event system: calls arrive at
 any time, promises settle at any time, and reactions run at any time after that. The only order the program
 imposes is its chain of tails.
 */
module SaveQueue {
  import opened Ordering

  datatype Kind = Save | Exclusive

  /** Its callback has not run; it is running; its promise has settled; its reaction has run too. */
  datatype Status = Waiting | Running | Returned | Done

  /**
   One call of `enqueue` or `runExclusive`. `persisted`: the save was really made. `quiet` records, for the
   statements below, that no exclusive operation was unfinished when the call was made.
   */
  datatype Operation = Operation(kind: Kind, requestID: nat, generation: nat, status: Status,
                                 persisted: bool, failed: bool, quiet: bool)
  {
    /** The tail that the next operation waits for: a save's promise, but an exclusive operation's reaction. */
    predicate Released() { status.Done? || (kind.Save? && status.Returned?) }
  }

  /** The closure's variables and the chain of operations in call order. `last` is the latest exclusive one. */
  datatype State = State(latestRequestID: nat, exclusiveGeneration: nat, operations: seq<Operation>, last: Option<nat>)

  const INITIAL := State(0, 0, [], None)

  datatype Event = Enqueue | Invalidate | RunExclusive | Start(i: nat) | Return(j: nat, ok: bool) | React(k: nat)

  predicate Quiet(operations: seq<Operation>)
  {
    forall i | 0 <= i < |operations| && operations[i].kind.Exclusive? :: operations[i].status.Done?
  }

  predicate Enabled(s: State, e: Event)
  {
    match e
    case Start(i) => i < |s.operations| && s.operations[i].status.Waiting? && (i > 0 ==> s.operations[i - 1].Released())
    case Return(i, _) => i < |s.operations| && s.operations[i].status.Running?
    case React(i) => i < |s.operations| && s.operations[i].status.Returned?
    case _ => true
  }

  /** An event that cannot happen in a state leaves it as it is. */
  function Step(s: State, e: Event): State
  {
    if !Enabled(s, e) then s
    else match e
      case Enqueue =>
        var id := s.latestRequestID + 1;
        var op := Operation(Save, id, s.exclusiveGeneration, Waiting, false, false, Quiet(s.operations));
        s.(latestRequestID := id, operations := s.operations + [op])
      case Invalidate => s.(latestRequestID := s.latestRequestID + 1)
      case RunExclusive =>
        var generation := s.exclusiveGeneration + 1;
        var op := Operation(Exclusive, 0, generation, Waiting, false, false, Quiet(s.operations));
        State(s.latestRequestID + 1, generation, s.operations + [op], Some(|s.operations|))
      case Start(i) =>
        var op := s.operations[i];
        var next := if op.kind.Exclusive? then op.(status := Running)
                    else if op.generation != s.exclusiveGeneration then op.(status := Returned)
                    else op.(status := Running, persisted := true);
        s.(operations := s.operations[i := next])
      case Return(i, ok) =>
        s.(operations := s.operations[i := s.operations[i].(status := Returned, failed := !ok)])
      case React(i) =>
        var op := s.operations[i];
        var settled := s.(operations := s.operations[i := op.(status := Done)]);
        if op.kind.Save? then settled
        else settled.(
            exclusiveGeneration := s.exclusiveGeneration + if s.exclusiveGeneration == op.generation then 1 else 0,
            latestRequestID := s.latestRequestID + 1)
  }

  /** `apply` fires at this event. */
  predicate Applies(s: State, e: Event)
  {
    && e.React? && Enabled(s, e)
    && var op := s.operations[e.k];
       op.kind.Save? && op.persisted && !op.failed && op.requestID == s.latestRequestID
  }

  /** `onError` fires at this event. */
  predicate Reports(s: State, e: Event)
  {
    && e.React? && Enabled(s, e)
    && var op := s.operations[e.k];
       op.kind.Save? && op.failed && op.requestID == s.latestRequestID
  }

  function Run(s: State, events: seq<Event>): State
    decreases |events|
  {
    if events == [] then s else Run(Step(s, events[0]), events[1..])
  }

  /** Operations start in call order and only when everything before them has let go. */
  predicate Chained(operations: seq<Operation>)
  {
    && (forall i, j | 0 <= i < j < |operations| && !operations[j].status.Waiting? :: operations[i].Released())
    && (forall i | 0 <= i < |operations| && operations[i].persisted ::
          operations[i].kind.Save? && !operations[i].status.Waiting?)
  }

  /** How the generations of the operations relate to the latest exclusive one. */
  predicate Generations(s: State)
  {
    match s.last
    case None =>
      s.exclusiveGeneration == 0
      && forall i | 0 <= i < |s.operations| ::
           s.operations[i].kind.Save? && s.operations[i].generation == 0 && s.operations[i].quiet
    case Some(l) =>
      && l < |s.operations| && s.operations[l].kind.Exclusive?
      && var g := s.operations[l].generation;
         && s.exclusiveGeneration == g + (if s.operations[l].status.Done? then 1 else 0)
         && (forall i | 0 <= i < l :: s.operations[i].generation < g)
         && forall i | l < i < |s.operations| ::
              && s.operations[i].kind.Save?
              && s.operations[i].generation == g + (if s.operations[i].quiet then 1 else 0)
              && (s.operations[i].quiet ==> s.operations[l].status.Done?)
  }

  ghost predicate Invariant(s: State)
  {
    && Chained(s.operations)
    && Generations(s)
  }

  lemma QuietIfLastDone(s: State)
    requires Invariant(s)
    ensures Quiet(s.operations) <==> s.last.None? || s.operations[s.last.value].status.Done?
  {
    if s.last.Some? && s.operations[s.last.value].status.Done? {
      forall i | 0 <= i < |s.operations| && s.operations[i].kind.Exclusive? ensures s.operations[i].status.Done? {
        if i < s.last.value { assert s.operations[i].Released(); }
      }
    }
  }

  /** Replacing one operation by a later stage of itself keeps the chain. */
  lemma AdvanceKeepsChain(operations: seq<Operation>, i: nat, next: Operation)
    requires Chained(operations) && i < |operations|
    requires !next.status.Waiting? && (next.persisted ==> next.kind.Save?)
    requires operations[i].Released() ==> next.Released()
    requires operations[i].status.Waiting? && i > 0 ==> operations[i - 1].Released()
    ensures Chained(operations[i := next])
  {
    assert forall j | 0 <= j < i :: operations[j].Released() by {
      if i > 0 { assert operations[i - 1].Released() ==> !operations[i - 1].status.Waiting?; }
    }
  }

  lemma StepKeepsChain(s: State, e: Event)
    requires Chained(s.operations)
    ensures Chained(Step(s, e).operations)
  {
    if Enabled(s, e) && (e.Start? || e.Return? || e.React?) {
      var i := if e.Start? then e.i else if e.Return? then e.j else e.k;
      var next := Step(s, e).operations[i];
      AdvanceKeepsChain(s.operations, i, next);
      assert Step(s, e).operations == s.operations[i := next];
    }
  }

  /** Starting and returning leave alone what the generations depend on. */
  lemma ProgressKeepsGenerations(s: State, i: nat, op: Operation)
    requires Generations(s) && i < |s.operations|
    requires op.kind == s.operations[i].kind && op.generation == s.operations[i].generation
    requires op.quiet == s.operations[i].quiet && (op.status.Done? <==> s.operations[i].status.Done?)
    ensures Generations(s.(operations := s.operations[i := op]))
  {
  }

  lemma ReactKeepsGenerations(s: State, k: nat)
    requires Invariant(s) && Enabled(s, React(k))
    ensures Generations(Step(s, React(k)))
  {
    var op := s.operations[k];
    assert Step(s, React(k)).operations == s.operations[k := op.(status := Done)];
  }

  lemma StepKeepsGenerations(s: State, e: Event)
    requires Invariant(s)
    ensures Generations(Step(s, e))
  {
    if !Enabled(s, e) {
    } else if e.React? {
      ReactKeepsGenerations(s, e.k);
    } else if e.Start? || e.Return? {
      var i := if e.Start? then e.i else e.j;
      hide Generations;
      var next := Step(s, e);
      ProgressKeepsGenerations(s, i, next.operations[i]);
      assert next == s.(operations := s.operations[i := next.operations[i]]);
    } else {
      QuietIfLastDone(s);
    }
  }

  lemma StepKeepsInvariant(s: State, e: Event)
    requires Invariant(s)
    ensures Invariant(Step(s, e))
  {
    StepKeepsChain(s, e);
    StepKeepsGenerations(s, e);
  }

  lemma {:induction false} RunKeepsInvariant(s: State, events: seq<Event>)
    requires Invariant(s)
    ensures Invariant(Run(s, events))
    decreases |events|
  {
    if events != [] {
      StepKeepsInvariant(s, events[0]);
      RunKeepsInvariant(Step(s, events[0]), events[1..]);
    }
  }

  /** In every schedule at most one operation runs, and when one has begun all called before it are over. */
  lemma NeverOverlap(events: seq<Event>, i: nat, j: nat)
    ensures var operations := Run(INITIAL, events).operations;
      i < j < |operations| && !operations[j].status.Waiting? ==>
        operations[i].Released() && !operations[i].status.Running? && !operations[i].status.Waiting?
  {
    RunKeepsInvariant(INITIAL, events);
  }

  /**
   When its turn comes, a save is really made exactly if no exclusive operation was unfinished at its call and
   none has been called since. Then no exclusive operation is unfinished at all.
   */
  lemma SavesExactlyWhenClear(events: seq<Event>, i: nat)
    requires var s := Run(INITIAL, events); Enabled(s, Start(i)) && s.operations[i].kind.Save?
    ensures var s := Run(INITIAL, events);
      var clear := s.operations[i].quiet && forall j | i < j < |s.operations| :: s.operations[j].kind.Save?;
      (Step(s, Start(i)).operations[i].persisted <==> clear)
      && Step(s, Start(i)).operations[i].status == if clear then Running else Returned
    ensures var s := Run(INITIAL, events);
      Step(s, Start(i)).operations[i].persisted ==> Quiet(s.operations)
  {
    var s := Run(INITIAL, events);
    RunKeepsInvariant(INITIAL, events);
    QuietIfLastDone(s);
    if s.last.Some? {
      if s.last.value < i { assert i > 0 ==> s.operations[i - 1].Released(); }
      else { assert s.operations[s.last.value].kind.Exclusive?; }
    }
  }

  /** The event makes every earlier request stale: a newer request, an invalidation, an exclusive call, or its end. */
  predicate MakesStale(s: State, e: Event)
  {
    match e
    case Enqueue => true
    case Invalidate => true
    case RunExclusive => true
    case React(i) => Enabled(s, e) && s.operations[i].kind.Exclusive?
    case _ => false
  }

  /** How often that happens along a schedule. */
  function StaleCount(s: State, events: seq<Event>): nat
    decreases |events|
  {
    if events == [] then 0
    else (if MakesStale(s, events[0]) then 1 else 0) + StaleCount(Step(s, events[0]), events[1..])
  }

  lemma {:induction false} LatestCounts(s: State, events: seq<Event>, i: nat)
    requires i < |s.operations|
    ensures var after := Run(s, events);
      && after.latestRequestID == s.latestRequestID + StaleCount(s, events)
      && i < |after.operations| && after.operations[i].requestID == s.operations[i].requestID
      && after.operations[i].kind == s.operations[i].kind
    decreases |events|
  {
    if events != [] {
      assert i < |Step(s, events[0]).operations|;
      assert Step(s, events[0]).operations[i].requestID == s.operations[i].requestID;
      LatestCounts(Step(s, events[0]), events[1..], i);
    }
  }

  /**
   Take any history, a request, and any schedule after it. When the request's reaction runs, its result is
   applied exactly if the save was made and succeeded and nothing has made it stale; an error is
   reported under the same condition.
   */
  lemma AppliesExactlyWhenNewest(history: seq<Event>, later: seq<Event>)
    requires var before := Run(INITIAL, history);
      Enabled(Run(Step(before, Enqueue), later), React(|before.operations|))
    ensures var before := Run(INITIAL, history);
      var i, called := |before.operations|, Step(before, Enqueue);
      var now := Run(called, later);
      var newest := StaleCount(called, later) == 0;
      && i < |now.operations|
      && (Applies(now, React(i)) <==> now.operations[i].persisted && !now.operations[i].failed && newest)
      && (Reports(now, React(i)) <==> now.operations[i].failed && newest)
  {
    var before := Run(INITIAL, history);
    LatestCounts(Step(before, Enqueue), later, |before.operations|);
  }

  // ----- What the flags of an operation mean along a schedule -----

  lemma {:induction false} RunSnoc(s: State, events: seq<Event>, last: Event)
    ensures Run(s, events + [last]) == Step(Run(s, events), last)
    decreases |events|
  {
    if events == [] {
      assert [last][1..] == [];
      assert Run(Step(s, last), []) == Step(s, last);
    } else {
      assert (events + [last])[1..] == events[1..] + [last];
      RunSnoc(Step(s, events[0]), events[1..], last);
    }
  }

  /** The n-th event of the schedule really happens. */
  predicate Happens(events: seq<Event>, n: nat)
    requires n < |events|
  {
    Enabled(Run(INITIAL, events[..n]), events[n])
  }

  lemma HappensBefore(events: seq<Event>, last: Event, n: nat)
    requires n < |events|
    ensures Happens(events + [last], n) == Happens(events, n)
  {
    assert (events + [last])[..n] == events[..n];
  }

  /**
   An operation has failed exactly if its promise was rejected; its promise is settled, though, if it was rejected or
   fulfilled, or if it was a save that its turn found superseded.
   */
  lemma {:induction false} FailedExactly(events: seq<Event>, i: nat)
    requires i < |Run(INITIAL, events).operations|
    ensures Run(INITIAL, events).operations[i].failed <==>
            exists n | 0 <= n < |events| :: events[n] == Return(i, false) && Happens(events, n)
    decreases |events|
  {
    if events != [] {
      var init, last := events[..|events| - 1], events[|events| - 1];
      assert events == init + [last];
      RunSnoc(INITIAL, init, last);
      var s := Run(INITIAL, init);
      assert events[..|init|] == init;
      forall n | 0 <= n < |init| ensures Happens(events, n) == Happens(init, n) && events[n] == init[n] {
        HappensBefore(init, last, n);
      }
      assert Happens(events, |init|) == Enabled(s, last);
      if i < |s.operations| {
        FailedExactly(init, i);
        ReturnsOnce(init, i);
      } else {
        forall n | 0 <= n < |init| ensures !(init[n] == Return(i, false) && Happens(init, n)) {
          if init[n] == Return(i, false) && Happens(init, n) { CallsStay(init, n, i); }
        }
      }
    }
  }

  /** What has been called by some event stays in the list. */
  lemma CallsStay(events: seq<Event>, n: nat, i: nat)
    requires n < |events| && i < |Run(INITIAL, events[..n]).operations|
    ensures i < |Run(INITIAL, events).operations|
  {
    assert events == events[..n] + events[n..];
    RunSplit(INITIAL, events[..n], events[n..]);
    LatestCounts(Run(INITIAL, events[..n]), events[n..], i);
  }

  lemma {:induction false} RunSplit(s: State, a: seq<Event>, b: seq<Event>)
    ensures Run(s, a + b) == Run(Run(s, a), b)
    decreases |a|
  {
    if a == [] {
      assert a + b == b;
    } else {
      assert (a + b)[1..] == a[1..] + b;
      RunSplit(Step(s, a[0]), a[1..], b);
    }
  }

  /** An operation whose promise may still settle has not failed. */
  lemma {:induction false} ReturnsOnce(events: seq<Event>, i: nat)
    requires i < |Run(INITIAL, events).operations|
    ensures var op := Run(INITIAL, events).operations[i]; op.status.Waiting? || op.status.Running? ==> !op.failed
    decreases |events|
  {
    if events != [] {
      var init, last := events[..|events| - 1], events[|events| - 1];
      assert events == init + [last];
      RunSnoc(INITIAL, init, last);
      if i < |Run(INITIAL, init).operations| { ReturnsOnce(init, i); }
    }
  }

  /** A turn comes exactly when all operations called before have let go: saves settled, exclusive ones at their end. */
  lemma StartsExactly(events: seq<Event>, i: nat)
    ensures var s := Run(INITIAL, events);
            Enabled(s, Start(i)) <==>
            && i < |s.operations| && s.operations[i].status.Waiting?
            && forall j | 0 <= j < i ::
                 s.operations[j].status.Done? || (s.operations[j].kind.Save? && s.operations[j].status.Returned?)
  {
    RunKeepsInvariant(INITIAL, events);
    var s := Run(INITIAL, events);
    if i < |s.operations| && i > 0 && s.operations[i - 1].Released() {
      assert !s.operations[i - 1].status.Waiting?;
      assert forall j | 0 <= j < i - 1 :: s.operations[j].Released();
    }
  }

  /** No schedule gets stuck: as long as an operation is unfinished, the first such one can go on. */
  lemma NeverStuck(events: seq<Event>)
    requires exists i | 0 <= i < |Run(INITIAL, events).operations| :: !Run(INITIAL, events).operations[i].status.Done?
    ensures var s := Run(INITIAL, events);
            exists i | 0 <= i < |s.operations| ::
              && !s.operations[i].status.Done? && (forall j | 0 <= j < i :: s.operations[j].status.Done?)
              && forall ok :: Enabled(s, Start(i)) || Enabled(s, Return(i, ok)) || Enabled(s, React(i))
  {
    var i := FirstUnfinished(Run(INITIAL, events).operations);
    StartsExactly(events, i);
  }

  lemma {:induction false} FirstUnfinished(operations: seq<Operation>) returns (i: nat)
    requires exists i | 0 <= i < |operations| :: !operations[i].status.Done?
    ensures i < |operations| && !operations[i].status.Done? && forall j | 0 <= j < i :: operations[j].status.Done?
  {
    i := 0;
    while operations[i].status.Done?
      invariant i < |operations| && forall j | 0 <= j < i :: operations[j].status.Done?
      invariant exists k | i <= k < |operations| :: !operations[k].status.Done?
      decreases |operations| - i
    {
      i := i + 1;
    }
  }

  /** The closure itself: variables that calls and reactions update. */
  class Queue {
    var latestRequestID: nat
    var exclusiveGeneration: nat
    var operations: seq<Operation>
    var last: Option<nat>

    function View(): State
      reads this
    {
      State(latestRequestID, exclusiveGeneration, operations, last)
    }

    constructor ()
      ensures View() == INITIAL
    {
      latestRequestID, exclusiveGeneration, operations, last := 0, 0, [], None;
    }

    method Enqueue()
      modifies this
      ensures View() == Step(old(View()), Event.Enqueue)
    {
      latestRequestID := latestRequestID + 1;
      var op := Operation(Save, latestRequestID, exclusiveGeneration, Waiting, false, false, Quiet(operations));
      operations := operations + [op];
    }

    method Invalidate()
      modifies this`latestRequestID
      ensures View() == Step(old(View()), Event.Invalidate)
    {
      latestRequestID := latestRequestID + 1;
    }

    method RunExclusive()
      modifies this
      ensures View() == Step(old(View()), Event.RunExclusive)
    {
      exclusiveGeneration := exclusiveGeneration + 1;
      latestRequestID := latestRequestID + 1;
      last := Some(|operations|);
      var op := Operation(Exclusive, 0, exclusiveGeneration, Waiting, false, false, Quiet(operations));
      operations := operations + [op];
    }

    /** The callback passed to `tail.then`: a save whose generation has passed returns without saving. */
    method StartOperation(i: nat)
      requires Enabled(View(), Start(i))
      modifies this`operations
      ensures View() == Step(old(View()), Start(i))
    {
      var op := operations[i];
      if op.kind.Save? && op.generation != exclusiveGeneration {
        operations := operations[i := op.(status := Returned)];
      } else {
        operations := operations[i := op.(status := Running, persisted := op.kind.Save? || op.persisted)];
      }
    }

    /** The promise of the running operation settles. */
    method Settle(i: nat, ok: bool)
      requires Enabled(View(), Return(i, ok))
      modifies this`operations
      ensures View() == Step(old(View()), Return(i, ok))
    {
      operations := operations[i := operations[i].(status := Returned, failed := !ok)];
    }

    /** The reaction to a settled promise. */
    method ReactTo(i: nat) returns (applied: bool, reported: bool)
      requires Enabled(View(), React(i))
      modifies this
      ensures View() == Step(old(View()), React(i))
      ensures applied == Applies(old(View()), React(i)) && reported == Reports(old(View()), React(i))
    {
      var op := operations[i];
      applied, reported := false, false;
      if op.kind.Save? {
        if op.failed { reported := op.requestID == latestRequestID; }
        else { applied := op.persisted && op.requestID == latestRequestID; }
      } else {
        if exclusiveGeneration == op.generation { exclusiveGeneration := exclusiveGeneration + 1; }
        latestRequestID := latestRequestID + 1;
      }
      operations := operations[i := op.(status := Done)];
    }
  }
}
