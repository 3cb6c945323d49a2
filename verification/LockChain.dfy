/** The worker's promise-chain mutex (browser/src/composed-cli-worker.js:130-138
    and its uses at 639-653, 662-685, 716-736).

    Every call of `acquireLock` makes a promise that its own release resolves
    and waits for the promise made by the call before it. Promise 0 is the
    resolved one the chain starts from; ticket `k` waits for promise `k` and
    releases promise `k + 1`. */
module LockChain {
  import opened Text

  datatype Chain = Chain(resolved: seq<bool>, entered: seq<bool>)

  const START := Chain([true], [])

  datatype Event = Acquire | Enter(ticket: nat) | Release(owner: nat)

  /** What may happen next: a call to `acquireLock`, a wait whose promise is
      resolved returning, or a holder running its `finally` block. */
  predicate Enabled(s: Chain, e: Event) {
    && |s.resolved| == |s.entered| + 1
    && match e
       case Acquire => true
       case Enter(k) => k < |s.entered| && s.resolved[k] && !s.entered[k]
       case Release(k) => k < |s.entered| && s.entered[k] && !s.resolved[k + 1]
  }

  function After(s: Chain, e: Event): Chain
    requires Enabled(s, e)
  {
    match e
    case Acquire => Chain(s.resolved + [false], s.entered + [false])
    case Enter(k) => s.(entered := s.entered[k := true])
    case Release(k) => s.(resolved := s.resolved[k + 1 := true])
  }

  /** The state after a run from `s`, if every event was possible in its turn. */
  function Run(s: Chain, events: seq<Event>): Option<Chain> {
    if events == [] then Some(s)
    else
      var t :- Run(s, events[..|events| - 1]);
      var e := events[|events| - 1];
      if Enabled(t, e) then Some(After(t, e)) else None
  }

  /** A run is its events one after the other. */
  lemma {:induction false} RunIs(s: Chain, events: seq<Event>, e: Event)
    ensures Run(s, []) == Some(s)
    ensures Run(s, events + [e]) ==
            (var t :- Run(s, events); if Enabled(t, e) then Some(After(t, e)) else None)
  {
    hide Enabled, After;
    assert (events + [e])[..|events + [e]| - 1] == events;
  }

  /** `acquireLock` over the real fields: the promises made so far and the
      chain's last one, which is the last made. */
  class Mutex {
    var resolved: seq<bool>
    var lockChain: nat
    ghost var entered: seq<bool>

    ghost predicate Valid()
      reads this
    {
      |resolved| == |entered| + 1 && lockChain == |resolved| - 1
    }

    ghost function Abs(): Chain
      reads this
    {
      Chain(resolved, entered)
    }

    constructor ()
      ensures Valid() && Abs() == START
    {
      resolved, lockChain, entered := [true], 0, [];
    }

    /** The promise to wait for and the promise to resolve. */
    method AcquireLock() returns (wait: nat, release: nat)
      requires Valid()
      modifies this
      ensures Valid() && Abs() == After(old(Abs()), Acquire)
      ensures wait == |old(entered)| && release == wait + 1
    {
      release := |resolved|;
      resolved := resolved + [false];
      wait := lockChain;
      lockChain := release;
      entered := entered + [false];
    }

    method Enter(wait: nat)
      requires Valid() && Enabled(Abs(), Event.Enter(wait))
      modifies this`entered
      ensures Valid() && Abs() == After(old(Abs()), Event.Enter(wait))
    {
      entered := entered[wait := true];
    }

    method Release(release: nat)
      requires Valid() && release > 0 && Enabled(Abs(), Event.Release(release - 1))
      modifies this`resolved
      ensures Valid() && Abs() == After(old(Abs()), Event.Release(release - 1))
    {
      resolved := resolved[release := true];
    }
  }

  // ----- what every run keeps -----

  /** Promises resolve in order, each by a holder that had the lock. */
  predicate Ordered(s: Chain) {
    && |s.resolved| == |s.entered| + 1
    && s.resolved[0]
    && (forall k :: 0 <= k < |s.entered| && s.entered[k] ==> s.resolved[k])
    && (forall k :: 0 < k < |s.resolved| && s.resolved[k] ==> s.entered[k - 1])
    && (forall j, k :: 0 <= j <= k < |s.resolved| && s.resolved[k] ==> s.resolved[j])
  }

  lemma {:induction false} OrderedStep(s: Chain, e: Event)
    requires Ordered(s) && Enabled(s, e)
    ensures Ordered(After(s, e))
  {
    match e
    case Acquire =>
    case Enter(k) =>
    case Release(k) =>
      assert s.resolved[k];
  }

  lemma {:induction false} RunKeepsOrder(s: Chain, events: seq<Event>)
    requires Ordered(s) && Run(s, events).Some?
    ensures Ordered(Run(s, events).value)
  {
    hide Ordered, Enabled, After;
    if events != [] {
      var front := events[..|events| - 1];
      RunKeepsOrder(s, front);
      OrderedStep(Run(s, front).value, events[|events| - 1]);
    }
  }

  /** No reachable state has two holders: tickets that entered and have not
      resolved the next promise yet. */
  lemma {:induction false} MutualExclusion(events: seq<Event>, j: nat, k: nat)
    requires Run(START, events).Some?
    requires var s := Run(START, events).value;
             && |s.resolved| == |s.entered| + 1 && j < |s.entered| && k < |s.entered|
             && s.entered[j] && !s.resolved[j + 1] && s.entered[k] && !s.resolved[k + 1]
    ensures j == k
  {
    hide Run;
    RunKeepsOrder(START, events);
    var s := Run(START, events).value;
    assert s.resolved[j] && s.resolved[k];
  }

  /** The tickets that entered, in the order in which they did. */
  function Entries(events: seq<Event>): seq<nat> {
    if events == [] then []
    else
      var e := events[|events| - 1];
      Entries(events[..|events| - 1]) + if e.Enter? then [e.ticket] else []
  }

  /** How many of the promises a waiting ticket needs are still unresolved. */
  function Ahead(s: Chain, k: nat): nat
    requires k < |s.resolved|
  {
    (if s.resolved[k] then 0 else 1) + if k == 0 then 0 else Ahead(s, k - 1)
  }

  /** The tickets that have entered are the first ones. */
  predicate EnteredAre(s: Chain, n: nat) {
    n <= |s.entered| && forall k :: 0 <= k < |s.entered| ==> (s.entered[k] <==> k < n)
  }

  /** Lock grants follow call order: the entries of a run are 0, 1, 2, ... */
  lemma {:induction false} GrantsInCallOrder(events: seq<Event>)
    requires Run(START, events).Some?
    ensures Entries(events) == seq(|Entries(events)|, i => i)
    ensures EnteredAre(Run(START, events).value, |Entries(events)|)
  {
    if events != [] {
      var front, e := events[..|events| - 1], events[|events| - 1];
      GrantsInCallOrder(front);
      RunKeepsOrder(START, front);
      NextEntry(Run(START, front).value, e, |Entries(front)|);
    }
  }

  lemma {:induction false} NextEntry(s: Chain, e: Event, n: nat)
    requires Ordered(s) && EnteredAre(s, n) && Enabled(s, e)
    ensures e.Enter? ==> e.ticket == n
    ensures EnteredAre(After(s, e), if e.Enter? then n + 1 else n)
  {
    if e.Enter? {
      var k := e.ticket;
      assert k >= n;
      assert k > 0 ==> s.entered[k - 1];
    }
  }

  // ----- every waiter is granted if every holder releases -----

  lemma {:induction false} AheadSame(s: Chain, t: Chain, k: nat)
    requires k < |s.resolved| && k < |t.resolved|
    requires forall i :: 0 <= i <= k ==> s.resolved[i] == t.resolved[i]
    ensures Ahead(s, k) == Ahead(t, k)
  {
    if k > 0 {
      AheadSame(s, t, k - 1);
    }
  }

  lemma {:induction false} AheadAfterRelease(s: Chain, t: Chain, k: nat, r: nat)
    requires k < |s.resolved| == |t.resolved| && r <= k
    requires !s.resolved[r] && t.resolved == s.resolved[r := true]
    ensures Ahead(t, k) == Ahead(s, k) - 1
  {
    if r == k {
      if k > 0 { AheadSame(s, t, k - 1); }
    } else {
      AheadAfterRelease(s, t, k - 1, r);
    }
  }

  lemma {:induction false} NobodyAhead(s: Chain, k: nat)
    requires Ordered(s) && k < |s.resolved|
    ensures Ahead(s, k) == 0 <==> s.resolved[k]
  {
    if k > 0 {
      NobodyAhead(s, k - 1);
    }
  }

  predicate Waits(s: Chain, k: nat) {
    |s.resolved| == |s.entered| + 1 && k < |s.entered| && !s.entered[k]
  }

  function Releases(events: seq<Event>): nat {
    if events == [] then 0
    else Releases(events[..|events| - 1]) + if events[|events| - 1].Release? then 1 else 0
  }

  /** While ticket `k` waits, each release brings it one place forward and
      nothing else moves it. */
  lemma {:induction false} ReleaseBringsForward(s: Chain, e: Event, k: nat)
    requires Ordered(s) && Enabled(s, e) && Waits(s, k)
    ensures |After(s, e).resolved| > k
    ensures Ahead(After(s, e), k) == Ahead(s, k) - if e.Release? then 1 else 0
  {
    hide Ahead;
    var t := After(s, e);
    match e
    case Acquire => AheadSame(s, t, k);
    case Enter(_) => AheadSame(s, t, k);
    case Release(r) =>
      assert s.resolved[r];
      var behind := s.resolved[k + 1];
      AheadAfterRelease(s, t, k, r + 1);
  }

  /** Over a run during which `k` keeps waiting, the releases made are exactly
      the places it moved forward. */
  lemma {:induction false} WaitIsBounded(s: Chain, events: seq<Event>, k: nat)
    requires Ordered(s) && Waits(s, k)
    requires Run(s, events).Some? && Waits(Run(s, events).value, k)
    ensures Releases(events) + Ahead(Run(s, events).value, k) == Ahead(s, k)
  {
    hide Ordered, Enabled, After, Ahead;
    if events != [] {
      var front, e := events[..|events| - 1], events[|events| - 1];
      var t := Run(s, front).value;
      RunKeepsOrder(s, front);
      WaitedBefore(s, front, k);
      StillWaited(t, e, k);
      WaitIsBounded(s, front, k);
      ReleaseBringsForward(t, e, k);
    }
  }

  lemma {:induction false} StillWaited(s: Chain, e: Event, k: nat)
    requires Enabled(s, e) && k < |s.entered| && Waits(After(s, e), k)
    ensures Waits(s, k)
  {
  }

  lemma {:induction false} WaitedBefore(s: Chain, events: seq<Event>, k: nat)
    requires Waits(s, k) && Run(s, events).Some?
    ensures var t := Run(s, events).value; |t.entered| >= |s.entered| && |t.resolved| == |t.entered| + 1
  {
    if events != [] {
      WaitedBefore(s, events[..|events| - 1], k);
    }
  }

  /** A waiter nobody is ahead of can go; otherwise some ticket ahead of it
      can take the next step, entering or releasing. */
  lemma {:induction false} NeverStuck(s: Chain, k: nat) returns (j: nat)
    requires Ordered(s) && Waits(s, k)
    ensures j <= k
    ensures j == k <==> Ahead(s, k) == 0
    ensures Enabled(s, Enter(j)) || (j < k && Enabled(s, Release(j)))
  {
    NobodyAhead(s, k);
    if s.resolved[k] {
      return k;
    }
    j := k - 1;
    while !s.resolved[j]
      invariant j < k && !s.resolved[j + 1]
      decreases j
    {
      j := j - 1;
    }
  }
}
