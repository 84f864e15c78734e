/**
 Optimistic role changes, queued per account (frontend/src/accounts.ts, createQueuedRoleChange): the display
 follows every request at once, replies come back in their own time, and a queue is dropped when it has drained.
 */
module RoleQueue {
  import opened Ordering

  datatype Role = Spammer | ScoutAnalyst

  datatype Status = Waiting | Running | Done

  /** One requested change; `reply` is the role the server confirmed, None for a failure or no reply yet. */
  datatype Change = Change(requestID: nat, role: Role, status: Status, reply: Option<Role>)

  /** One account's queue: the closure's record, and the changes chained behind its tail. */
  datatype Queue = Queue(latestRequestID: nat, committedRole: Role, initialRole: Role, changes: seq<Change>)

  /** `display` is the role last passed to `apply`, per account. */
  datatype State = State(sequence: nat, queues: map<string, Queue>, display: map<string, Role>)

  const INITIAL := State(0, map[], map[])

  /** A call; the turn of a queued change; the reply to the running one; the clean-up after the last one. */
  datatype Event =
    | Request(id: string, role: Role, previousRole: Role)
    | Turn(id: string, i: nat)
    | Reply(id: string, i: nat, result: Option<Role>)
    | Drop(id: string)

  predicate AllDone(changes: seq<Change>)
  {
    forall i | 0 <= i < |changes| :: changes[i].status.Done?
  }

  predicate Enabled(s: State, e: Event)
  {
    e.Request? ||
    (e.id in s.queues &&
     var changes := s.queues[e.id].changes;
     match e
     case Turn(_, i) => i < |changes| && changes[i].status.Waiting? && (i > 0 ==> changes[i - 1].status.Done?)
     case Reply(_, i, _) => i < |changes| && changes[i].status.Running?
     case Drop(_) => changes != [] && changes[|changes| - 1].status.Done?
     case _ => true)
  }

  function Requested(s: State, id: string, role: Role, previousRole: Role): State
  {
    var requestID := s.sequence + 1;
    var queue := if id in s.queues then s.queues[id] else Queue(requestID, previousRole, previousRole, []);
    State(requestID, s.queues[id := Extended(queue, requestID, role)], s.display[id := role])
  }

  function Extended(q: Queue, requestID: nat, role: Role): Queue
  {
    q.(latestRequestID := requestID, changes := q.changes + [Change(requestID, role, Waiting, None)])
  }

  function Answered(q: Queue, i: nat, result: Option<Role>): Queue
    requires i < |q.changes|
  {
    q.(committedRole := if result.Some? then result.value else q.committedRole,
       changes := q.changes[i := q.changes[i].(status := Done, reply := result)])
  }

  function Replied(s: State, id: string, i: nat, result: Option<Role>): State
    requires id in s.queues && i < |s.queues[id].changes|
  {
    var queue := s.queues[id];
    var next := Answered(queue, i, result);
    s.(queues := s.queues[id := next],
       display := if queue.latestRequestID == queue.changes[i].requestID
                  then s.display[id := next.committedRole] else s.display)
  }

  /** An event that cannot happen in a state leaves it as it is. */
  function Step(s: State, e: Event): State
  {
    if !Enabled(s, e) then s
    else match e
      case Request(id, role, previousRole) => Requested(s, id, role, previousRole)
      case Turn(id, i) =>
        var queue := s.queues[id];
        s.(queues := s.queues[id := queue.(changes := queue.changes[i := queue.changes[i].(status := Running)])])
      case Reply(id, i, result) => Replied(s, id, i, result)
      case Drop(id) => s.(queues := s.queues - {id})
  }

  function Run(s: State, events: seq<Event>): State
    decreases |events|
  {
    if events == [] then s else Run(Step(s, events[0]), events[1..])
  }

  /** The role the server confirmed last, or the one the queue started from. */
  function LastConfirmed(changes: seq<Change>, initial: Role): Role
  {
    if changes == [] then initial
    else
      var last := changes[|changes| - 1];
      if last.reply.Some? then last.reply.value else LastConfirmed(changes[..|changes| - 1], initial)
  }

  lemma {:induction false} NoReplyKeepsConfirmed(changes: seq<Change>, initial: Role, i: nat)
    requires i < |changes| && forall j | i <= j < |changes| :: changes[j].reply.None?
    ensures LastConfirmed(changes, initial) == LastConfirmed(changes[..i], initial)
  {
    var front := changes[..|changes| - 1];
    if i < |front| {
      NoReplyKeepsConfirmed(front, initial, i);
      assert front[..i] == changes[..i];
    } else {
      assert front == changes[..i];
    }
  }

  /** Ids ascend; a change begins only when all before it are done; only done changes have a reply. */
  predicate Orderly(changes: seq<Change>)
  {
    && (forall i, j | 0 <= i < j < |changes| :: changes[i].requestID < changes[j].requestID)
    && (forall i, j | 0 <= i < j < |changes| && !changes[j].status.Waiting? :: changes[i].status.Done?)
    && (forall i | 0 <= i < |changes| && changes[i].reply.Some? :: changes[i].status.Done?)
  }

  predicate SoundQueue(q: Queue)
  {
    && q.changes != [] && q.latestRequestID == q.changes[|q.changes| - 1].requestID
    && Orderly(q.changes)
    && q.committedRole == LastConfirmed(q.changes, q.initialRole)
  }

  /** What the user sees: the newest request while it is open, and what the server settled on afterwards. */
  predicate ShowsRightRole(q: Queue, shown: Role)
    requires q.changes != []
  {
    var newest := q.changes[|q.changes| - 1];
    shown == if newest.status.Done? then LastConfirmed(q.changes, q.initialRole) else newest.role
  }

  predicate SoundAccount(s: State, id: string)
  {
    id in s.queues ==> id in s.display && SoundPair(s.queues[id], s.display[id], s.sequence)
  }

  predicate SoundPair(q: Queue, shown: Role, sequence: nat)
  {
    SoundQueue(q) && q.latestRequestID <= sequence && ShowsRightRole(q, shown)
  }

  ghost predicate Invariant(s: State)
  {
    forall id | id in s.queues :: SoundAccount(s, id)
  }

  lemma AllBeforeDone(changes: seq<Change>, i: nat)
    requires Orderly(changes) && i < |changes| && (i > 0 ==> changes[i - 1].status.Done?)
    ensures forall j | 0 <= j < i :: changes[j].status.Done?
  {
  }

  lemma ExtendedOrderly(changes: seq<Change>, requestID: nat, role: Role)
    requires Orderly(changes) && (changes != [] ==> changes[|changes| - 1].requestID < requestID)
    ensures Orderly(changes + [Change(requestID, role, Waiting, None)])
  {
  }

  lemma ExtendedSound(q: Queue, requestID: nat, role: Role)
    requires Orderly(q.changes) && q.committedRole == LastConfirmed(q.changes, q.initialRole)
    requires q.changes != [] ==> q.changes[|q.changes| - 1].requestID < requestID
    ensures SoundPair(Extended(q, requestID, role), role, requestID)
  {
    var next := Extended(q, requestID, role);
    ExtendedOrderly(q.changes, requestID, role);
    assert next.changes[..|next.changes| - 1] == q.changes;
  }

  /** Only the change at i moves, and everything behind it is still waiting. */
  lemma MovedOrderly(changes: seq<Change>, i: nat, next: Change)
    requires Orderly(changes) && i < |changes| && next.requestID == changes[i].requestID
    requires forall j | 0 <= j < i :: changes[j].status.Done?
    requires forall j | i < j < |changes| :: changes[j].status.Waiting?
    requires next.reply.Some? ==> next.status.Done?
    ensures Orderly(changes[i := next])
  {
  }

  lemma AnsweredConfirmed(q: Queue, i: nat, result: Option<Role>)
    requires SoundQueue(q) && i < |q.changes| && forall j | i <= j < |q.changes| :: q.changes[j].reply.None?
    ensures var next := Answered(q, i, result);
      next.committedRole == LastConfirmed(next.changes, q.initialRole)
  {
    var next := Answered(q, i, result).changes;
    NoReplyKeepsConfirmed(q.changes, q.initialRole, i);
    var front := next[..i + 1];
    assert front[..i] == q.changes[..i] && front[i] == next[i];
    assert LastConfirmed(front, q.initialRole)
           == if result.Some? then result.value else LastConfirmed(q.changes[..i], q.initialRole);
    if i + 1 < |next| { NoReplyKeepsConfirmed(next, q.initialRole, i + 1); } else { assert front == next; }
  }

  lemma RequestKeepsAccount(s: State, id: string, role: Role, previousRole: Role)
    requires SoundAccount(s, id)
    ensures SoundAccount(Requested(s, id, role, previousRole), id)
  {
    hide SoundPair, Extended;
    if id in s.queues {
      SoundExtended(s.queues[id], s.display[id], s.sequence, role);
    } else {
      FirstRequest(s.sequence, role, previousRole);
    }
  }

  lemma SoundExtended(q: Queue, shown: Role, sequence: nat, role: Role)
    requires SoundPair(q, shown, sequence)
    ensures SoundPair(Extended(q, sequence + 1, role), role, sequence + 1)
  {
    hide ShowsRightRole;
    ExtendedSound(q, sequence + 1, role);
  }

  lemma FirstRequest(sequence: nat, role: Role, previousRole: Role)
    ensures SoundPair(Extended(Queue(sequence + 1, previousRole, previousRole, []), sequence + 1, role), role,
                      sequence + 1)
  {
    hide ShowsRightRole;
    ExtendedSound(Queue(sequence + 1, previousRole, previousRole, []), sequence + 1, role);
  }

  lemma ReplyKeepsAccount(s: State, id: string, i: nat, result: Option<Role>)
    requires SoundAccount(s, id) && Enabled(s, Reply(id, i, result))
    ensures SoundAccount(Replied(s, id, i, result), id)
  {
    var q := s.queues[id];
    assert forall j | i < j < |q.changes| :: q.changes[j].status.Waiting?;
    MovedOrderly(q.changes, i, q.changes[i].(status := Done, reply := result));
    AnsweredConfirmed(q, i, result);
  }

  lemma TurnKeepsAccount(s: State, id: string, i: nat)
    requires SoundAccount(s, id) && Enabled(s, Turn(id, i))
    ensures SoundAccount(Step(s, Turn(id, i)), id)
  {
    var q, next := s.queues[id], Step(s, Turn(id, i)).queues[id];
    AllBeforeDone(q.changes, i);
    assert forall j | i <= j < |q.changes| :: q.changes[j].status.Waiting?;
    MovedOrderly(q.changes, i, q.changes[i].(status := Running));
    NoReplyKeepsConfirmed(q.changes, q.initialRole, i);
    NoReplyKeepsConfirmed(next.changes, q.initialRole, i);
    assert next.changes[..i] == q.changes[..i];
  }

  /** An event of one account leaves every other account's queue and display alone. */
  lemma AccountsIndependent(s: State, e: Event, other: string)
    requires other != e.id
    ensures var next := Step(s, e);
      && (other in next.queues <==> other in s.queues)
      && (other in s.queues ==> next.queues[other] == s.queues[other])
      && (other in next.display <==> other in s.display)
      && (other in s.display ==> next.display[other] == s.display[other])
      && s.sequence <= next.sequence
  {
  }

  lemma StepKeepsInvariant(s: State, e: Event)
    requires Invariant(s)
    ensures Invariant(Step(s, e))
  {
    if Enabled(s, e) {
      match e
      case Request(id, role, previousRole) => RequestKeepsAccount(s, id, role, previousRole);
      case Turn(id, i) => TurnKeepsAccount(s, id, i);
      case Reply(id, i, result) => ReplyKeepsAccount(s, id, i, result);
      case Drop(_) =>
    }
    forall id | id in Step(s, e).queues ensures SoundAccount(Step(s, e), id) {
      if id != e.id { AccountsIndependent(s, e, id); }
    }
  }

  lemma {:induction false} RunKeepsInvariant(s: State, events: seq<Event>)
    requires Invariant(s)
    ensures Invariant(Run(s, events))
    decreases |events|
  {
    if events != [] {
      StepKeepsInvariant(s, events[0]);
      RunKeepsInvariant(Step(s, events[0]), events[1..]);
    }
  }

  /** Requests for one account never overlap and go out in call order. */
  lemma OneRequestAtATime(events: seq<Event>, id: string, i: nat, j: nat)
    ensures var s := Run(INITIAL, events);
      id in s.queues && i < j < |s.queues[id].changes| && !s.queues[id].changes[j].status.Waiting? ==>
        s.queues[id].changes[i].status.Done?
  {
    RunKeepsInvariant(INITIAL, events);
    var s := Run(INITIAL, events);
    if id in s.queues { assert SoundAccount(s, id); }
  }

  /**
   In every interleaving, when an account's queue has drained, its display holds the role the server confirmed
   last, or the queue's initial role if it confirmed none; dropping the queue leaves that display.
   */
  lemma DrainedShowsConfirmed(events: seq<Event>, id: string)
    requires id in Run(INITIAL, events).queues && Enabled(Run(INITIAL, events), Drop(id))
    ensures var s := Run(INITIAL, events);
      && AllDone(s.queues[id].changes)
      && id in s.display && s.display[id] == LastConfirmed(s.queues[id].changes, s.queues[id].initialRole)
      && id in Step(s, Drop(id)).display && Step(s, Drop(id)).display[id] == s.display[id]
  {
    RunKeepsInvariant(INITIAL, events);
    var s := Run(INITIAL, events);
    assert SoundAccount(s, id);
  }

  // ----- The same in terms of what happened -----

  lemma {:induction false} RunSnoc(s: State, events: seq<Event>, last: Event)
    ensures Run(s, events + [last]) == Step(Run(s, events), last)
    decreases |events|
  {
    if events == [] {
      assert [last][1..] == [];
      assert Run(Step(s, last), []) == Step(s, last);
    } else {
      assert (events + [last])[1..] == events[1..] + [last];
      RunSnoc(Step(s, events[0]), events[1..], last);
    }
  }

  /**
   The role an account has been settled on by the events so far: what the server last confirmed, or, since a request
   that found no queue, the role the caller named as the previous one.
   */
  function Settled(events: seq<Event>, id: string): Option<Role>
    decreases |events|
  {
    if events == [] then None
    else
      var init, last := events[..|events| - 1], events[|events| - 1];
      var s := Run(INITIAL, init);
      if last.id != id || !Enabled(s, last) then Settled(init, id)
      else match last
        case Request(_, _, previousRole) => if id in s.queues then Settled(init, id) else Some(previousRole)
        case Reply(_, _, result) => if result.Some? then result else Settled(init, id)
        case _ => Settled(init, id)
  }

  lemma {:induction false} CommittedSettled(events: seq<Event>, id: string)
    ensures id in Run(INITIAL, events).queues ==>
      Settled(events, id) == Some(Run(INITIAL, events).queues[id].committedRole)
    decreases |events|
  {
    if events != [] {
      var init, last := events[..|events| - 1], events[|events| - 1];
      assert events == init + [last];
      RunSnoc(INITIAL, init, last);
      CommittedSettled(init, id);
      if last.id != id { AccountsIndependent(Run(INITIAL, init), last, id); }
    }
  }

  /** The role asked for last. */
  function Asked(events: seq<Event>, id: string): Option<Role>
    decreases |events|
  {
    if events == [] then None
    else
      var last := events[|events| - 1];
      if last.Request? && last.id == id then Some(last.role) else Asked(events[..|events| - 1], id)
  }

  lemma {:induction false} NewestAsked(events: seq<Event>, id: string)
    ensures id in Run(INITIAL, events).queues ==>
      var changes := Run(INITIAL, events).queues[id].changes;
      changes != [] && Asked(events, id) == Some(changes[|changes| - 1].role)
    decreases |events|
  {
    if events != [] {
      var init, last := events[..|events| - 1], events[|events| - 1];
      assert events == init + [last];
      RunSnoc(INITIAL, init, last);
      NewestAsked(init, id);
      if last.id != id { AccountsIndependent(Run(INITIAL, init), last, id); }
    }
  }

  /**
   What the user sees of an account with a queue, told from the events alone: the role asked for last as long as that
   request is open, and afterwards the role the account has been settled on.
   */
  lemma DisplayExact(events: seq<Event>, id: string)
    requires id in Run(INITIAL, events).queues
    ensures var s := Run(INITIAL, events);
            && id in s.display
            && Some(s.display[id]) == if Enabled(s, Drop(id)) then Settled(events, id) else Asked(events, id)
  {
    RunKeepsInvariant(INITIAL, events);
    CommittedSettled(events, id);
    NewestAsked(events, id);
    assert SoundAccount(Run(INITIAL, events), id);
  }

  /** A turn comes exactly when all changes before are done; so a queue that has not drained can always go on. */
  lemma TurnsExactly(events: seq<Event>, id: string, i: nat)
    requires id in Run(INITIAL, events).queues
    ensures var s := Run(INITIAL, events); var changes := s.queues[id].changes;
            && (Enabled(s, Turn(id, i)) <==>
                  && i < |changes| && changes[i].status.Waiting? && forall j | 0 <= j < i :: changes[j].status.Done?)
            && (i < |changes| && !changes[i].status.Done? && (forall j | 0 <= j < i :: changes[j].status.Done?) ==>
                  forall result :: Enabled(s, Turn(id, i)) || Enabled(s, Reply(id, i, result)))
            && (Enabled(s, Drop(id)) <==> forall j | 0 <= j < |changes| :: changes[j].status.Done?)
  {
    RunKeepsInvariant(INITIAL, events);
    assert SoundAccount(Run(INITIAL, events), id);
  }

  /** The closure itself. */
  class RoleChanger {
    var sequence: nat
    var queues: map<string, Queue>
    var display: map<string, Role>

    function View(): State reads this { State(sequence, queues, display) }

    constructor ()
      ensures View() == INITIAL
    { sequence, queues, display := 0, map[], map[]; }

    /** The returned function: show the role at once and append the request to the account's chain. */
    method Request(id: string, role: Role, previousRole: Role)
      modifies this
      ensures View() == Step(old(View()), Event.Request(id, role, previousRole))
    {
      sequence := sequence + 1;
      if id !in queues {
        queues := queues[id := Queue(sequence, previousRole, previousRole, [])];
      }
      var queue := queues[id];
      queue := queue.(latestRequestID := sequence);
      display := display[id := role];
      queue := queue.(changes := queue.changes + [Change(sequence, role, Waiting, None)]);
      queues := queues[id := queue];
    }

    /** `execute` up to its `await`. */
    method Begin(id: string, i: nat)
      requires Enabled(View(), Turn(id, i))
      modifies this`queues
      ensures View() == Step(old(View()), Turn(id, i))
    {
      var queue := queues[id];
      queues := queues[id := queue.(changes := queue.changes[i := queue.changes[i].(status := Running)])];
    }

    /** `execute` after its `await`: a late reply commits, but only the newest request may change the display. */
    method Finish(id: string, i: nat, result: Option<Role>) returns (reported: bool)
      requires Enabled(View(), Reply(id, i, result))
      modifies this`queues, this`display
      ensures View() == Step(old(View()), Reply(id, i, result))
      ensures reported <==> result.None? && old(queues)[id].latestRequestID == old(queues)[id].changes[i].requestID
    {
      var queue := queues[id];
      var change := queue.changes[i];
      if result.Some? { queue := queue.(committedRole := result.value); }
      reported := false;
      if queue.latestRequestID == change.requestID {
        display := display[id := queue.committedRole];
        reported := result.None?;
      }
      queue := queue.(changes := queue.changes[i := change.(status := Done, reply := result)]);
      queues := queues[id := queue];
    }

    /** The clean-up behind the last operation. */
    method DropQueue(id: string)
      requires Enabled(View(), Drop(id))
      modifies this`queues
      ensures View() == Step(old(View()), Drop(id))
    {
      queues := queues - {id};
    }
  }
}
