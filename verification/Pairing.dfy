/** Request and response pairing between the main thread and the worker
    (browser/src/sqlink-composed.js:27-84 and 193-227, with the worker's
    dispatch at browser/src/composed-cli-worker.js:836-858).

    `Db` is what `ComposedDatabase` keeps, together with how each promise it
    handed out was settled. `System` adds the two message channels and the
    worker, whose handlers run concurrently and answer in any order. */
module Pairing {
  import opened Text

  /** How a promise is settled by a reply; a value may be undefined. */
  datatype Outcome = Resolved(value: Option<string>) | Rejected(error: string)

  /** What a handler in the worker did. */
  datatype Handled = Returned(value: string) | Threw(error: string)

  datatype Settlement = Replied(outcome: Outcome) | WorkerFailed | DatabaseClosed | TimedOut

  datatype Message = Message(kind: string, id: nat)

  /** A response has a result or an error; the other field is undefined. */
  datatype FromWorker = Booted | Response(id: nat, result: Option<string>, error: Option<string>) | Other

  /** The worker's answer to the message it handled. */
  function ResponseOf(id: nat, h: Handled): FromWorker {
    match h
    case Returned(value) => Response(id, Some(value), None)
    case Threw(error) => Response(id, None, Some(error))
  }

  /** An error that is the empty string counts as none, as any falsy value
      does. */
  function OutcomeOf(m: FromWorker): Outcome
    requires m.Response?
  {
    if m.error.Some? && m.error.value != "" then Rejected(m.error.value) else Resolved(m.result)
  }

  // ----- the main thread -----

  datatype Db = Db(nextId: nat, pending: set<nat>, closed: bool, settled: map<nat, Settlement>)

  const OPENED := Db(1, {}, false, map[])

  function Settle(db: Db, id: nat, how: Settlement): Db {
    db.(pending := db.pending - {id}, settled := db.settled[id := how])
  }

  function SettleAll(db: Db, how: Settlement): Db {
    db.(pending := {}, settled := db.settled + map id | id in db.pending :: how)
  }

  /** Every pending promise is settled so, the others as they were. */
  lemma {:induction false} SettleAllIs(db: Db, how: Settlement, id: nat)
    ensures var t := SettleAll(db, how);
            && t.pending == {} && t.nextId == db.nextId && t.closed == db.closed
            && (id in t.settled <==> id in db.settled || id in db.pending)
            && (id in t.settled ==> t.settled[id] == if id in db.pending then how else db.settled[id])
  {
  }

  function Issue(db: Db): Db {
    db.(nextId := db.nextId + 1, pending := db.pending + {db.nextId})
  }

  function Receive(db: Db, m: FromWorker): Db {
    if m.Response? && m.id in db.pending then Settle(db, m.id, Replied(OutcomeOf(m))) else db
  }

  function TimerFires(db: Db, id: nat): Db {
    if id in db.pending then Settle(db, id, TimedOut) else db
  }

  /** The class, with the promises it has settled as a field. */
  class ComposedDatabase {
    var nextId: nat
    var pending: set<nat>
    var closed: bool
    var posted: seq<Message>
    var settled: map<nat, Settlement>

    ghost function Abs(): Db
      reads this
    {
      Db(nextId, pending, closed, settled)
    }

    constructor ()
      ensures Abs() == OPENED && posted == []
    {
      nextId, pending, closed, posted, settled := 1, {}, false, [], map[];
    }

    method OnMessage(m: FromWorker)
      modifies this`pending, this`settled
      ensures Abs() == Receive(old(Abs()), m)
      ensures !(m.Response? && m.id in old(pending)) ==> pending == old(pending) && settled == old(settled)
      ensures m.Response? && m.id in old(pending) ==>
                && pending == old(pending) - {m.id}
                && settled == old(settled)[
                       m.id := Replied(match m.error
                                       case None => Resolved(m.result)
                                       case Some(e) => if e == "" then Resolved(m.result) else Rejected(e))]
    {
      match m
      case Booted =>
      case Other =>
      case Response(id, result, error) =>
        if id !in pending { return; }
        pending := pending - {id};
        if error.Some? && error.value != "" {
          settled := settled[id := Replied(Rejected(error.value))];
        } else {
          settled := settled[id := Replied(Resolved(result))];
        }
    }

    /** Rejects whatever is pending, one after the other, and forgets it. */
    method RejectAll(how: Settlement)
      modifies this`pending, this`settled
      ensures Abs() == SettleAll(old(Abs()), how)
    {
      var rest := pending;
      while rest != {}
        invariant rest <= pending == old(pending)
        invariant settled.Keys == old(settled).Keys + (pending - rest)
        invariant forall id <- settled :: settled[id] == if id in pending - rest then how else old(settled)[id]
        decreases |rest|
      {
        var id :| id in rest;
        settled := settled[id := how];
        rest := rest - {id};
      }
      assert settled == SettleAll(old(Abs()), how).settled;
      pending := {};
    }

    method OnError()
      modifies this`pending, this`settled
      ensures Abs() == SettleAll(old(Abs()), WorkerFailed)
    {
      RejectAll(WorkerFailed);
    }

    /** No promise is handed out once the database is closed. */
    method PostAndAwait(kind: string) returns (id: Option<nat>)
      modifies this`nextId, this`pending, this`posted
      ensures old(closed) ==> id == None && Abs() == old(Abs()) && posted == old(posted)
      ensures !old(closed) ==>
                && id == Some(old(nextId)) && Abs() == Issue(old(Abs()))
                && nextId == old(nextId) + 1 && pending == old(pending) + {old(nextId)}
                && posted == old(posted) + [Message(kind, old(nextId))]
    {
      if closed { return None; }
      id := Some(nextId);
      pending := pending + {nextId};
      posted := posted + [Message(kind, nextId)];
      nextId := nextId + 1;
    }

    /** `close()` up to its `await`: the id it waits for, or nothing when the
        call returns at once. */
    method CloseBegin() returns (id: Option<nat>)
      modifies this
      ensures old(closed) ==> id == None && Abs() == old(Abs()) && posted == old(posted)
      ensures !old(closed) ==>
                && id == Some(old(nextId)) && Abs() == Issue(old(Abs())).(closed := true)
                && nextId == old(nextId) + 1 && pending == old(pending) + {old(nextId)}
                && posted == old(posted) + [Message("close", old(nextId))]
    {
      if closed { return None; }
      closed := true;
      id := Some(nextId);
      pending := pending + {nextId};
      posted := posted + [Message("close", nextId)];
      nextId := nextId + 1;
    }

    method CloseTimer(id: nat)
      modifies this`pending, this`settled
      ensures Abs() == TimerFires(old(Abs()), id)
      ensures pending == old(pending) - {id}
      ensures settled == if id in old(pending) then old(settled)[id := TimedOut] else old(settled)
    {
      if id in pending {
        pending := pending - {id};
        settled := settled[id := TimedOut];
      }
    }

    /** `close()` after its `await`. */
    method CloseEnd()
      modifies this`pending, this`settled
      ensures Abs() == SettleAll(old(Abs()), DatabaseClosed)
    {
      RejectAll(DatabaseClosed);
    }
  }

  // ----- the whole exchange -----

  datatype Closing = Open | Awaiting(id: nat) | Finished(id: nat)

  /** `answers` is history: what the handler of each message did. */
  datatype System = System(
    db: Db,
    toWorker: seq<Message>,
    working: set<nat>,
    answers: map<nat, Handled>,
    inbox: seq<FromWorker>,
    closing: Closing)

  const START := System(OPENED, [], {}, map[], [], Open)

  datatype Event =
    | Post(kind: string)
    | CallClose
    | CloseTimer
    | CloseEnd
    | WorkerTakes
    | WorkerReplies(id: nat, handled: Handled)
    | WorkerBoots
    | Deliver
    | WorkerFails

  predicate Enabled(s: System, e: Event) {
    match e
    case Post(_) => true
    case CallClose => true
    case CloseTimer => !s.closing.Open?
    case CloseEnd => s.closing.Awaiting? && s.closing.id in s.db.settled
    case WorkerTakes => s.toWorker != [] && !s.closing.Finished?
    case WorkerReplies(id, _) => id in s.working && !s.closing.Finished?
    case WorkerBoots => !s.closing.Finished?
    case Deliver => s.inbox != []
    case WorkerFails => true
  }

  function After(s: System, e: Event): System
    requires Enabled(s, e)
  {
    match e
    case Post(kind) =>
      if s.db.closed then s
      else s.(db := Issue(s.db), toWorker := s.toWorker + [Message(kind, s.db.nextId)])
    case CallClose =>
      if s.db.closed then s
      else s.(db := Issue(s.db).(closed := true), toWorker := s.toWorker + [Message("close", s.db.nextId)],
              closing := Awaiting(s.db.nextId))
    case CloseTimer => s.(db := TimerFires(s.db, s.closing.id))
    case CloseEnd => s.(db := SettleAll(s.db, DatabaseClosed), closing := Finished(s.closing.id))
    case WorkerTakes => s.(toWorker := s.toWorker[1..], working := s.working + {s.toWorker[0].id})
    case WorkerReplies(id, h) =>
      s.(working := s.working - {id}, answers := s.answers[id := h], inbox := s.inbox + [ResponseOf(id, h)])
    case WorkerBoots => s.(inbox := s.inbox + [Booted])
    case Deliver => s.(db := Receive(s.db, s.inbox[0]), inbox := s.inbox[1..])
    case WorkerFails => s.(db := SettleAll(s.db, WorkerFailed))
  }

  function Run(s: System, events: seq<Event>): Option<System> {
    if events == [] then Some(s)
    else
      var t :- Run(s, events[..|events| - 1]);
      var e := events[|events| - 1];
      if Enabled(t, e) then Some(After(t, e)) else None
  }

  /** A run is its events one after the other. */
  lemma {:induction false} RunIs(s: System, events: seq<Event>, e: Event)
    ensures Run(s, []) == Some(s)
    ensures Run(s, events + [e]) ==
            (var t :- Run(s, events); if Enabled(t, e) then Some(After(t, e)) else None)
  {
    hide Enabled, After;
    assert (events + [e])[..|events + [e]| - 1] == events;
  }

  // ----- what every reachable state satisfies -----

  /** The ids handed out are exactly the pending and the settled ones. */
  ghost predicate IdsSplit(db: Db) {
    && db.nextId >= 1
    && db.pending !! db.settled.Keys
    && forall id: nat :: id in db.pending || id in db.settled <==> 0 < id < db.nextId
  }

  /** Messages travel to the worker in id order; it works on each id once. */
  predicate Channels(s: System) {
    && |s.toWorker| < s.db.nextId
    && (forall i :: 0 <= i < |s.toWorker| ==> s.toWorker[i].id == s.db.nextId - |s.toWorker| + i)
    && (forall id <- s.working :: id < s.db.nextId - |s.toWorker|)
    && (forall id <- s.answers :: id < s.db.nextId - |s.toWorker|)
    && s.working !! s.answers.Keys
  }

  predicate Replies(s: System) {
    && (forall m <- s.inbox :: m.Response? ==>
          m.id in s.answers && m == ResponseOf(m.id, s.answers[m.id]))
    && (forall id <- s.db.settled :: s.db.settled[id].Replied? ==>
          id in s.answers && s.db.settled[id].outcome == OutcomeOf(ResponseOf(id, s.answers[id])))
  }

  predicate CloseState(s: System) {
    && (s.closing.Open? <==> !s.db.closed)
    && (!s.closing.Open? ==> s.closing.id >= 1 && s.db.nextId == s.closing.id + 1)
    && (s.closing.Finished? ==> s.db.pending == {})
  }

  ghost predicate Sound(s: System) {
    IdsSplit(s.db) && Channels(s) && Replies(s) && CloseState(s)
  }

  lemma {:induction false} SplitStep(s: System, e: Event)
    requires IdsSplit(s.db) && Enabled(s, e)
    ensures IdsSplit(After(s, e).db)
  {
  }

  lemma {:induction false} ChannelsStep(s: System, e: Event)
    requires IdsSplit(s.db) && Channels(s) && Enabled(s, e)
    ensures Channels(After(s, e))
  {
    hide IdsSplit;
  }

  lemma {:induction false} RepliesStep(s: System, e: Event)
    requires Channels(s) && Replies(s) && Enabled(s, e)
    ensures Replies(After(s, e))
  {
    hide OutcomeOf;
    if e.Deliver? {
      assert s.inbox[0] in s.inbox && forall m <- s.inbox[1..] :: m in s.inbox;
    }
  }

  lemma {:induction false} CloseStep(s: System, e: Event)
    requires IdsSplit(s.db) && CloseState(s) && Enabled(s, e)
    ensures CloseState(After(s, e))
  {
  }

  lemma {:induction false} SoundRun(events: seq<Event>)
    requires Run(START, events).Some?
    ensures Sound(Run(START, events).value)
  {
    if events != [] {
      hide IdsSplit, Channels, Replies, CloseState, Enabled, After;
      var s, e := Run(START, events[..|events| - 1]).value, events[|events| - 1];
      SoundRun(events[..|events| - 1]);
      SplitStep(s, e);
      ChannelsStep(s, e);
      RepliesStep(s, e);
      CloseStep(s, e);
    }
  }

  /** Nothing is lost on the way: what has left the queue is being worked on or
      answered, and an answer to a pending id is in the inbox. */
  ghost predicate Kept(s: System) {
    && |s.toWorker| < s.db.nextId
    && (forall id: nat :: 0 < id < s.db.nextId - |s.toWorker| ==> id in s.working || id in s.answers)
    && (forall id <- s.answers :: id in s.db.pending ==> ResponseOf(id, s.answers[id]) in s.inbox)
  }

  lemma {:induction false} QueueKept(s: System, e: Event)
    requires Channels(s) && Kept(s) && Enabled(s, e)
    ensures var t := After(s, e);
            && |t.toWorker| < t.db.nextId
            && forall id: nat :: 0 < id < t.db.nextId - |t.toWorker| ==> id in t.working || id in t.answers
  {
  }

  lemma {:induction false} InboxKept(s: System, e: Event)
    requires Channels(s) && IdsSplit(s.db) && Kept(s) && Enabled(s, e)
    ensures var t := After(s, e);
            forall id <- t.answers :: id in t.db.pending ==> ResponseOf(id, t.answers[id]) in t.inbox
  {
    var t := After(s, e);
    forall id | id in t.answers && id in t.db.pending
      ensures ResponseOf(id, t.answers[id]) in t.inbox
    {
      if e.WorkerReplies? && e.id == id {
        assert t.inbox[|t.inbox| - 1] == ResponseOf(id, t.answers[id]);
      } else {
        assert id in s.answers && id in s.db.pending && t.answers[id] == s.answers[id];
        if e.Deliver? {
          assert s.inbox == [s.inbox[0]] + s.inbox[1..];
        }
      }
    }
  }

  // ----- main results -----

  /** In every reachable state each pending id is under way: its message waits
      in the worker's queue, or its handler is at work, or the reply is in the
      inbox. */
  lemma {:induction false} PendingIsUnderWay(events: seq<Event>, id: nat)
    requires Run(START, events).Some? && id in Run(START, events).value.db.pending
    ensures var s := Run(START, events).value;
            || (exists m <- s.toWorker :: m.id == id)
            || id in s.working
            || (id in s.answers && ResponseOf(id, s.answers[id]) in s.inbox)
  {
    hide Run, Replies, CloseState;
    SoundRun(events);
    NothingLost(events);
    var s := Run(START, events).value;
    var behind := s.db.nextId - |s.toWorker|;
    if id >= behind {
      assert s.toWorker[id - behind].id == id;
    }
  }

  lemma {:induction false} NothingLost(events: seq<Event>)
    requires Run(START, events).Some?
    ensures Kept(Run(START, events).value)
  {
    if events != [] {
      hide IdsSplit, Channels, Replies, CloseState, Enabled, After;
      var s, e := Run(START, events[..|events| - 1]).value, events[|events| - 1];
      SoundRun(events[..|events| - 1]);
      NothingLost(events[..|events| - 1]);
      QueueKept(s, e);
      InboxKept(s, e);
    }
  }

  /** In every reachable state every id handed out is either pending or
      settled and never both. An id settled by a reply is settled by what the
      handler of the message with that id did: resolved with the value it
      returned, rejected with the error it threw. An error that is the empty
      string resolves the promise with an undefined value. */
  lemma {:induction false} EveryIdAccountedFor(events: seq<Event>, id: nat)
    requires Run(START, events).Some?
    ensures var s := Run(START, events).value;
            && (0 < id < s.db.nextId <==> id in s.db.pending || id in s.db.settled)
            && !(id in s.db.pending && id in s.db.settled)
            && (id in s.db.settled && s.db.settled[id].Replied? ==>
                  && id in s.answers
                  && match s.answers[id]
                     case Returned(value) => s.db.settled[id].outcome == Resolved(Some(value))
                     case Threw(error) =>
                       s.db.settled[id].outcome == if error == "" then Resolved(None) else Rejected(error))
  {
    hide Run, Channels, CloseState;
    SoundRun(events);
  }

  /** The reply a worker sends for a pending id settles its promise when it is
      delivered: it is rejected exactly when the handler threw an error that is
      not the empty string. */
  lemma {:induction false} DeliveredReplySettles(events: seq<Event>)
    requires Run(START, events).Some?
    requires var s := Run(START, events).value;
             s.inbox != [] && s.inbox[0].Response? && s.inbox[0].id in s.db.pending
    ensures var s := Run(START, events).value;
            var id := s.inbox[0].id;
            var t := After(s, Deliver);
            && id !in t.db.pending && id in t.db.settled && t.db.settled[id].Replied? && id in s.answers
            && match s.answers[id]
               case Returned(value) => t.db.settled[id].outcome == Resolved(Some(value))
               case Threw(error) => t.db.settled[id].outcome == if error == "" then Resolved(None) else Rejected(error)
  {
    hide Run, Channels, CloseState;
    SoundRun(events);
    assert Run(START, events).value.inbox[0] in Run(START, events).value.inbox;
  }

  /** What is settled stays as it is, through any further run. */
  lemma {:induction false} SettledOnce(first: seq<Event>, more: seq<Event>, id: nat)
    requires Run(START, first).Some? && Run(START, first + more).Some?
    requires id in Run(START, first).value.db.settled
    ensures id in Run(START, first + more).value.db.settled
    ensures Run(START, first + more).value.db.settled[id] == Run(START, first).value.db.settled[id]
  {
    hide Enabled, After;
    if more == [] {
      assert first + more == first;
    } else {
      var all, front := first + more, more[..|more| - 1];
      assert all[..|all| - 1] == first + front;
      SettledOnce(first, front, id);
      SoundRun(first + front);
      SettledStep(Run(START, first + front).value, all[|all| - 1], id);
    }
  }

  lemma {:induction false} SettledStep(s: System, e: Event, id: nat)
    requires Sound(s) && Enabled(s, e) && id in s.db.settled
    ensures id in After(s, e).db.settled && After(s, e).db.settled[id] == s.db.settled[id]
  {
    hide Channels, Replies, CloseState;
  }

  /** Once the call that closed the database has returned, every promise ever
      handed out is settled and no further one is, whatever happens next. */
  lemma {:induction false} NothingPendingAfterClose(first: seq<Event>, more: seq<Event>)
    requires Run(START, first).Some? && Run(START, first + more).Some?
    requires Run(START, first).value.closing.Finished?
    ensures var s, t := Run(START, first).value, Run(START, first + more).value;
            && t.db.pending == {} && t.db.nextId == s.db.nextId
            && forall id: nat :: id in t.db.settled <==> 0 < id < s.db.nextId
  {
    hide Run, Channels, Replies;
    SoundRun(first + more);
    StaysFinished(first, more);
  }

  lemma {:induction false} StaysFinished(first: seq<Event>, more: seq<Event>)
    requires Run(START, first).Some? && Run(START, first + more).Some?
    requires Run(START, first).value.closing.Finished?
    ensures Run(START, first + more).value.closing.Finished?
    ensures Run(START, first + more).value.db.nextId == Run(START, first).value.db.nextId
  {
    if more == [] {
      assert first + more == first;
    } else {
      var all, front := first + more, more[..|more| - 1];
      assert all[..|all| - 1] == first + front;
      StaysFinished(first, front);
      SoundRun(first + front);
      FinishedStep(Run(START, first + front).value, all[|all| - 1]);
    }
  }

  lemma {:induction false} FinishedStep(s: System, e: Event)
    requires CloseState(s) && Enabled(s, e) && s.closing.Finished?
    ensures After(s, e).closing.Finished? && After(s, e).db.nextId == s.db.nextId
  {
  }

  /** Closing always ends: if the worker never answers, the timer does. */
  lemma {:induction false} CloseAlwaysEnds(events: seq<Event>)
    requires Run(START, events).Some? && Run(START, events).value.closing.Awaiting?
    ensures Run(START, events + [CloseTimer, CloseEnd]).Some?
    ensures Run(START, events + [CloseTimer, CloseEnd]).value.closing.Finished?
  {
    hide Channels, Replies;
    SoundRun(events);
    var all := events + [CloseTimer, CloseEnd];
    assert all[..|all| - 1] == events + [CloseTimer];
    assert (events + [CloseTimer])[..|events|] == events;
  }

  /** The first call of `close()` issues its id and waits; every later call
      returns at once and leaves everything as it is. */
  lemma {:induction false} FirstCloseWaits(s: System)
    requires Sound(s)
    ensures !s.db.closed ==> After(s, CallClose).closing == Awaiting(s.db.nextId)
    ensures s.db.closed ==> After(s, CallClose) == s
  {
    hide IdsSplit, Channels, Replies;
  }

  /** A call of `close()` that returns at once leaves nothing pending exactly
      when the first call has returned, or when its id and every id before it
      are settled already. */
  lemma {:induction false} EarlyReturnIsCleanIff(events: seq<Event>)
    requires Run(START, events).Some? && Run(START, events).value.db.closed
    ensures var s := Run(START, events).value;
            After(s, CallClose).db.pending == {} <==>
            || s.closing.Finished?
            || (s.closing.Awaiting? && forall id: nat :: 0 < id <= s.closing.id ==> id in s.db.settled)
  {
    hide Run, Channels, Replies;
    SoundRun(events);
    var s := Run(START, events).value;
    if s.closing.Awaiting? && forall id: nat :: 0 < id <= s.closing.id ==> id in s.db.settled {
      assert forall id <- s.db.pending :: id in s.db.settled;
    }
  }

  /** Until the first call's own id is settled, an early return always leaves
      that id pending. */
  lemma {:induction false} EarlyReturnBeforeSettling(events: seq<Event>)
    requires Run(START, events).Some?
    requires var s := Run(START, events).value; s.closing.Awaiting? && s.closing.id !in s.db.settled
    ensures var s := Run(START, events).value; s.closing.id in After(s, CallClose).db.pending
  {
    hide Run, Channels, Replies;
    SoundRun(events);
  }

  /** Between the settling of the close and its end it depends: here the close
      is answered before the request that was posted first. */
  lemma {:induction false} EarlyReturnAfterSettling()
    ensures var s := Run(START, [Post("exec"), CallClose, WorkerTakes, WorkerTakes,
                                 WorkerReplies(2, Returned("{}")), Deliver]);
            && s.Some? && s.value.closing == Awaiting(2) && 2 in s.value.db.settled
            && After(s.value, CallClose) == s.value && s.value.db.pending == {1}
  {
    hide OutcomeOf;
    var e1, e2, e3 := [Post("exec")], [Post("exec"), CallClose], [Post("exec"), CallClose, WorkerTakes];
    var e4 := e3 + [WorkerTakes];
    var e5 := e4 + [WorkerReplies(2, Returned("{}"))];
    var e6 := e5 + [Deliver];
    var s1 := After(START, Post("exec"));
    var s2 := After(s1, CallClose);
    assert s2.toWorker == [Message("exec", 1), Message("close", 2)];
    var s3 := After(s2, WorkerTakes);
    var s4 := After(s3, WorkerTakes);
    var s5 := After(s4, WorkerReplies(2, Returned("{}")));
    RunSteps([], Post("exec"), START);
    assert [] + [Post("exec")] == e1;
    RunSteps(e1, CallClose, s1);
    assert e1 + [CallClose] == e2;
    RunSteps(e2, WorkerTakes, s2);
    assert e2 + [WorkerTakes] == e3;
    RunSteps(e3, WorkerTakes, s3);
    RunSteps(e4, WorkerReplies(2, Returned("{}")), s4);
    RunSteps(e5, Deliver, s5);
    assert e6 == [Post("exec"), CallClose, WorkerTakes, WorkerTakes, WorkerReplies(2, Returned("{}")), Deliver];
  }

  lemma {:induction false} RunSteps(events: seq<Event>, e: Event, s: System)
    requires Run(START, events) == Some(s) && Enabled(s, e)
    ensures Run(START, events + [e]) == Some(After(s, e))
  {
    hide Enabled, After;
    assert (events + [e])[..|events|] == events;
  }

  /** A second `close()` may return while requests are still pending: here
      one request is posted and `close()` is called twice. */
  lemma {:induction false} SecondCloseReturnsEarly()
    ensures var s := Run(START, [Post("exec"), CallClose]);
            && s.Some? && After(s.value, CallClose) == s.value
            && s.value.db.pending == {1, 2}
  {
    var events := [Post("exec"), CallClose];
    assert events[..1] == [Post("exec")];
    assert events[..1][..0] == [];
    assert Run(START, events[..1][..0]) == Some(START);
    assert Run(START, events[..1]) == Some(After(START, Post("exec")));
  }
}
