/** The composed-CLI session (browser/src/composed-cli-worker.js:140-199,
    468-472, 638-687, 710-738): callers queue at the mutex, the one that holds
    it pushes its script and waits for its sentinel in the shared output, and
    the CLI reads scripts in order and writes at its own pace.

    What is assumed of the surroundings is in `Enabled`: the user's part of
    every script is complete, so that the sentinel's select is a statement of
    its own, the CLI answers scripts in the order they were pushed and echoes
    nothing, writes only clean items (`CliWindow.Clean`), and a prompt always
    arrives in one chunk. Apart
    from that, every interleaving of calls, steps, output and chunks is a run. */
module Session {
  import opened Text
  import opened CliWindow
  import LockChain

  // ----- requests -----

  datatype Request = Exec(sql: string) | Dot(line: string) | Load(name: string)

  function TrimNewlines(s: string): string {
    if s != "" && s[|s| - 1] in {'\r', '\n'} then TrimNewlines(s[..|s| - 1]) else s
  }

  /** What the user's part of the script is. */
  function UserLine(r: Request): string {
    match r
    case Exec(sql) =>
      var trimmed := TrimEnd(sql);
      if trimmed != "" && trimmed[|trimmed| - 1] == ';' then trimmed else trimmed + ";"
    case Dot(line) => TrimNewlines(line)
    case Load(name) => ".load " + name
  }

  /** A script on stdin: the user's part and the select of its sentinel. */
  datatype Script = Script(request: Request, id: nat) {
    function Text(): string {
      UserLine(request) + "\nSELECT '" + Sentinel(id) + "';\n"
    }
  }

  lemma {:induction false} TrimNewlinesIs(body: string, ends: string)
    requires (forall c <- ends :: c == '\r' || c == '\n')
    requires body != "" ==> body[|body| - 1] != '\r' && body[|body| - 1] != '\n'
    ensures TrimNewlines(body + ends) == body
  {
    if ends == "" {
      assert body + ends == body;
    } else {
      var n := |ends| - 1;
      assert (body + ends)[..|body + ends| - 1] == body + ends[..n];
      assert (body + ends)[|body + ends| - 1] == ends[n] && ends[n] in ends;
      assert forall c <- ends[..n] :: c in ends;
      TrimNewlinesIs(body, ends[..n]);
    }
  }

  /** What is pushed for a request: the statement with white space at its end
      cut and one semicolon behind it, with or without one there before, the dot
      command without line ends, or `.load` and the name; then, on a line of its
      own, the select of the request's sentinel. */
  lemma {:induction false} ScriptTexts(body: string, white: string, ends: string, id: nat)
    requires body != "" && !IsSpace(body[|body| - 1]) && body[|body| - 1] != ';'
    requires (forall c <- white :: IsSpace(c)) && (forall c <- ends :: c == '\r' || c == '\n')
    ensures var select := "\nSELECT '__SQLINK_SENT_" + Decimal(id) + "__';\n";
            && Script(Exec(body + white), id).Text() == body + ";" + select
            && Script(Exec(body + ";" + white), id).Text() == body + ";" + select
            && Script(Dot(body + ends), id).Text() == body + select
            && Script(Load(body), id).Text() == ".load " + body + select
            && Script(Exec(white), id).Text() == ";" + select
  {
    hide Decimal, TrimEnd, TrimNewlines;
    TrimEndIs(body, white);
    TrimEndIs(body + ";", white);
    TrimEndIs("", white);
    assert "" + white == white;
    TrimNewlinesIs(body, ends);
    SentinelText(body, id);
    SentinelText(body + ";", id);
    SentinelText(".load " + body, id);
    SentinelText(";", id);
  }

  lemma {:induction false} SentinelText(line: string, id: nat)
    ensures line + "\nSELECT '" + Sentinel(id) + "';\n" == line + ("\nSELECT '__SQLINK_SENT_" + Decimal(id) + "__';\n")
  {
    hide Decimal;
    assert "\nSELECT '" + "__SQLINK_SENT_" == "\nSELECT '__SQLINK_SENT_";
  }

  function Texts(scripts: seq<Script>): seq<string> {
    seq(|scripts|, i requires 0 <= i < |scripts| => scripts[i].Text())
  }

  datatype Outcome = Rows(sets: seq<ResultSet>) | Output(text: string) | Loaded

  /** `handleExec`, `handleExecDotCommand` and `issueDotLoad` once their
      sentinel has been seen. */
  function OutcomeOf(r: Request, id: nat, cursor: nat, buffer: string): Outcome
    requires SentinelSeen(buffer, cursor, Sentinel(id))
  {
    var window := WindowOf(buffer, cursor, Sentinel(id));
    match r
    case Exec(_) => Rows(Parsed(window, Sentinel(id)))
    case Dot(_) =>
      var start := IndexOf(window, "SELECT '" + Sentinel(id) + "'", 0);
      Output(if start >= 0 then window[..start] else window)
    case Load(_) => Loaded
  }

  // ----- what the CLI writes, in the pieces that chunks may not split -----

  datatype Atom = Ch(c: char) | Whole(continued: bool)

  function AtomText(a: Atom): (t: string)
    ensures t != ""
  {
    match a
    case Ch(c) => [c]
    case Whole(c) => PromptText(c)
  }

  function Flat(atoms: seq<Atom>): string {
    if atoms == [] then "" else AtomText(atoms[0]) + Flat(atoms[1..])
  }

  function Chars(s: string): seq<Atom> {
    seq(|s|, i requires 0 <= i < |s| => Ch(s[i]))
  }

  function ItemAtoms(item: Item): seq<Atom> {
    match item
    case Row(t) => Chars(t + "\n")
    case Info(t) => Chars(t + "\n")
    case Blank => [Ch('\n')]
    case Prompt(c) => [Whole(c)]
  }

  function AtomsOf(items: seq<Item>): seq<Atom> {
    if items == [] then [] else ItemAtoms(items[0]) + AtomsOf(items[1..])
  }

  /** Line ends and prompts: what may follow a sentinel. */
  predicate Quiet(atoms: seq<Atom>) {
    forall a <- atoms :: a.Whole? || a.c == '\n'
  }

  function QuietItems(atoms: seq<Atom>): (items: seq<Item>)
    requires Quiet(atoms)
  {
    if atoms == [] then []
    else [if atoms[0].Whole? then Prompt(atoms[0].continued) else Blank] + QuietItems(atoms[1..])
  }

  // ----- the protocol -----

  datatype Phase = Waiting | Running(id: nat, cursor: nat) | Done(outcome: Outcome)

  datatype Call = Call(request: Request, phase: Phase)

  datatype Answer = Answer(script: Script, items: seq<Item>)

  /** `pending` is written but not yet delivered. The last three fields are
      history: the CLI's answers in order, all that was written since the
      running request's cursor, and the part of it written before its script
      was taken. */
  datatype State = State(
    chain: LockChain.Chain,
    calls: seq<Call>,
    execCount: nat,
    stdin: seq<Script>,
    buffer: string,
    pending: seq<Atom>,
    answers: seq<Answer>,
    written: seq<Atom>,
    noise: seq<Item>)

  /** After the first prompt has been seen: `banner` is all output so far. */
  function Start(banner: string): State {
    State(LockChain.START, [], 0, [], banner, [], [], [], [])
  }

  datatype Event =
    | Request(request: Request)
    | Enter(ticket: nat)
    | Take(items: seq<Item>)
    | ShowPrompt(continued: bool)
    | Deliver(count: nat)
    | Finish(owner: nat)

  ghost predicate Enabled(s: State, e: Event) {
    match e
    case Request(_) => LockChain.Enabled(s.chain, LockChain.Acquire)
    case Enter(k) => k < |s.calls| && LockChain.Enabled(s.chain, LockChain.Enter(k))
    case Take(items) => s.stdin != [] && AllClean(items)
    case ShowPrompt(_) => true
    case Deliver(n) => 0 < n <= |s.pending|
    case Finish(k) =>
      && k < |s.calls| && s.calls[k].phase.Running?
      && SentinelSeen(s.buffer, s.calls[k].phase.cursor, Sentinel(s.calls[k].phase.id))
      && LockChain.Enabled(s.chain, LockChain.Release(k))
  }

  function AnswerAtoms(items: seq<Item>, id: nat): seq<Atom> {
    AtomsOf(items) + Chars(Sentinel(id)) + [Ch('\n')]
  }

  ghost function Write(s: State, atoms: seq<Atom>): State {
    s.(pending := s.pending + atoms, written := s.written + atoms)
  }

  ghost function Begin(s: State, k: nat): State
    requires Enabled(s, Enter(k))
  {
    var id := s.execCount + 1;
    s.(chain := LockChain.After(s.chain, LockChain.Enter(k)),
       calls := s.calls[k := s.calls[k].(phase := Running(id, |s.buffer|))],
       execCount := id,
       stdin := s.stdin + [Script(s.calls[k].request, id)],
       written := s.pending,
       noise := if Quiet(s.pending) then QuietItems(s.pending) else [])
  }

  ghost function After(s: State, e: Event): State
    requires Enabled(s, e)
  {
    match e
    case Request(r) =>
      s.(chain := LockChain.After(s.chain, LockChain.Acquire), calls := s.calls + [Call(r, Waiting)])
    case Enter(k) => Begin(s, k)
    case Take(items) =>
      Write(s, AnswerAtoms(items, s.stdin[0].id)).(
      stdin := s.stdin[1..], answers := s.answers + [Answer(s.stdin[0], items)])
    case ShowPrompt(c) =>
      var t := Write(s, [Whole(c)]);
      if s.stdin != [] then t.(noise := s.noise + [Prompt(c)]) else t
    case Deliver(n) => s.(buffer := s.buffer + Flat(s.pending[..n]), pending := s.pending[n..])
    case Finish(k) =>
      var p := s.calls[k].phase;
      s.(chain := LockChain.After(s.chain, LockChain.Release(k)),
         calls := s.calls[k := s.calls[k].(phase := Done(OutcomeOf(s.calls[k].request, p.id, p.cursor, s.buffer)))])
  }

  ghost function Run(s: State, events: seq<Event>): Option<State> {
    if events == [] then Some(s)
    else
      var t :- Run(s, events[..|events| - 1]);
      var e := events[|events| - 1];
      if Enabled(t, e) then Some(After(t, e)) else None
  }

  /** A run is its events one after the other. */
  lemma {:induction false} RunIs(s: State, events: seq<Event>, e: Event)
    ensures Run(s, []) == Some(s)
    ensures Run(s, events + [e]) ==
            (var t :- Run(s, events); if Enabled(t, e) then Some(After(t, e)) else None)
  {
    hide Enabled, After;
    assert (events + [e])[..|events + [e]| - 1] == events;
  }

  // ----- texts of atoms -----

  lemma {:induction false} FlatConcat(a: seq<Atom>, b: seq<Atom>)
    ensures Flat(a + b) == Flat(a) + Flat(b)
  {
    if a == [] {
      assert a + b == b;
    } else {
      assert (a + b)[1..] == a[1..] + b;
      FlatConcat(a[1..], b);
    }
  }

  lemma {:induction false} FlatChars(s: string)
    ensures Flat(Chars(s)) == s
  {
    if s != "" {
      assert Chars(s)[1..] == Chars(s[1..]);
      FlatChars(s[1..]);
      assert s == [s[0]] + s[1..];
    }
  }

  lemma {:induction false} FlatItem(item: Item)
    ensures Flat(ItemAtoms(item)) == ItemText(item)
  {
    match item
    case Row(t) => FlatChars(t + "\n");
    case Info(t) => FlatChars(t + "\n");
    case Blank => assert Flat([Ch('\n')][1..]) == "";
    case Prompt(c) => assert Flat([Whole(c)][1..]) == "";
  }

  lemma {:induction false} FlatItems(items: seq<Item>)
    ensures Flat(AtomsOf(items)) == Printed(items)
  {
    hide Flat, ItemAtoms, ItemText;
    if items == [] {
      assert Flat([]) == "" by { FlatChars(""); assert Chars("") == []; }
    } else {
      FlatConcat(ItemAtoms(items[0]), AtomsOf(items[1..]));
      FlatItem(items[0]);
      FlatItems(items[1..]);
    }
  }

  lemma {:induction false} AtomsConcat(a: seq<Item>, b: seq<Item>)
    ensures AtomsOf(a + b) == AtomsOf(a) + AtomsOf(b)
  {
    hide ItemAtoms;
    if a == [] {
      assert a + b == b;
    } else {
      assert (a + b)[1..] == a[1..] + b;
      AtomsConcat(a[1..], b);
    }
  }

  /** Quiet output is items without rows. */
  ghost predicate IsNoise(items: seq<Item>) {
    forall item <- items :: item.Blank? || item.Prompt?
  }

  lemma {:induction false} QuietAreItems(atoms: seq<Atom>)
    requires Quiet(atoms)
    ensures IsNoise(QuietItems(atoms)) && AtomsOf(QuietItems(atoms)) == atoms
  {
    if atoms != [] {
      assert atoms[0] in atoms;
      QuietAreItems(atoms[1..]);
      var items := QuietItems(atoms);
      assert items[1..] == QuietItems(atoms[1..]);
      assert atoms == [atoms[0]] + atoms[1..];
    }
  }

  lemma {:induction false} NoiseHasNoRows(items: seq<Item>)
    requires IsNoise(items)
    ensures RowsOf(items) == [] && AllClean(items)
  {
    if items != [] {
      assert items[0] in items;
      NoiseHasNoRows(items[1..]);
    }
  }

  /** More atoms make more text. */
  lemma {:induction false} FlatGrows(atoms: seq<Atom>, i: nat, j: nat)
    requires i < j <= |atoms|
    ensures |Flat(atoms[..i])| < |Flat(atoms[..j])|
  {
    hide AtomText;
    var more := atoms[i..j];
    assert atoms[..j] == atoms[..i] + more;
    FlatConcat(atoms[..i], more);
    assert |AtomText(more[0])| > 0;
  }

  lemma {:induction false} LongerIsLater(atoms: seq<Atom>, i: nat, j: nat)
    requires i <= |atoms| && j <= |atoms| && |Flat(atoms[..i])| >= |Flat(atoms[..j])|
    ensures i >= j
  {
    if i < j {
      FlatGrows(atoms, i, j);
    }
  }

  lemma {:induction false} FlatPrefix(atoms: seq<Atom>, i: nat)
    requires i <= |atoms|
    ensures Flat(atoms[..i]) <= Flat(atoms)
  {
    hide Flat;
    assert atoms == atoms[..i] + atoms[i..];
    FlatConcat(atoms[..i], atoms[i..]);
  }

  lemma {:induction false} FlatAnswer(items: seq<Item>, id: nat)
    ensures Flat(AnswerAtoms(items, id)) == Printed(items) + Sentinel(id) + "\n"
  {
    hide Flat, Sentinel;
    FlatItems(items);
    FlatChars(Sentinel(id));
    FlatChars("\n");
    assert Chars("\n") == [Ch('\n')];
    FlatConcat(AtomsOf(items), Chars(Sentinel(id)));
    FlatConcat(AtomsOf(items) + Chars(Sentinel(id)), [Ch('\n')]);
  }

  // ----- what every reachable state satisfies -----

  /** Calls follow the lock: the first `execCount` calls have entered, each
      under its own number, and all of them but possibly the last are done. */
  predicate Queue(s: State) {
    && LockChain.Ordered(s.chain)
    && |s.calls| == |s.chain.entered|
    && LockChain.EnteredAre(s.chain, s.execCount)
    && (forall k :: 0 <= k < |s.calls| ==> (s.calls[k].phase.Waiting? <==> k >= s.execCount))
    && (forall k :: 0 <= k < |s.calls| ==> (s.calls[k].phase.Done? <==> s.chain.resolved[k + 1]))
    && (forall k :: 0 <= k < |s.calls| && s.calls[k].phase.Running? ==> s.calls[k].phase.id == k + 1)
  }

  predicate Busy(s: State) {
    0 < s.execCount <= |s.calls| && s.calls[s.execCount - 1].phase.Running?
  }

  /** All that has been written since the cursor of the running request. */
  predicate Delivered(buffer: string, cursor: nat, written: seq<Atom>, pending: seq<Atom>) {
    && cursor <= |buffer| && |pending| <= |written|
    && pending == written[|written| - |pending|..]
    && buffer[cursor..] == Flat(written[..|written| - |pending|])
  }

  /** The request's whole output: noise, its own answer, its own sentinel, and
      then nothing but noise. */
  predicate Complete(written: seq<Atom>, items: seq<Item>, id: nat) {
    && AnswerAtoms(items, id) <= written
    && Quiet(written[|AnswerAtoms(items, id)|..])
  }

  ghost predicate Window(s: State) {
    if Busy(s) then
      var n := s.execCount;
      var call := s.calls[n - 1];
      && Delivered(s.buffer, call.phase.cursor, s.written, s.pending) && IsNoise(s.noise)
      && if |s.answers| == n then s.stdin == [] && Complete(s.written, s.noise + s.answers[n - 1].items, n)
         else && |s.answers| == n - 1 && s.stdin == [Script(call.request, n)]
              && s.written == AtomsOf(s.noise) && Quiet(s.written)
    else s.stdin == [] && |s.answers| == s.execCount && Quiet(s.pending)
  }

  /** What a finished call may have got when its script was answered so. */
  ghost predicate Right(c: Call, id: nat, answer: Answer) {
    && answer.script == Script(c.request, id)
    && (c.phase.Done? ==>
          match c.request
          case Exec(_) =>
            && c.phase.outcome.Rows?
            && (c.phase.outcome.sets == [] <==> RowsOf(answer.items) == [])
            && (c.phase.outcome.sets != [] ==> c.phase.outcome.sets == [ResultSet([], RowsOf(answer.items))])
          case Dot(_) =>
            && c.phase.outcome.Output?
            && exists noise | IsNoise(noise) ::
                 UpToLineEnd(c.phase.outcome.text, Printed(noise) + Printed(answer.items) + Sentinel(id))
          case Load(_) => c.phase.outcome == Loaded)
  }

  ghost predicate Answered(s: State) {
    && |s.answers| <= |s.calls|
    && forall k :: 0 <= k < |s.answers| ==> AllClean(s.answers[k].items) && Right(s.calls[k], k + 1, s.answers[k])
  }

  ghost predicate Sound(s: State) {
    Queue(s) && Window(s) && Answered(s)
  }

  // ----- one event at a time -----

  lemma {:induction false} QueueCall(s: State, r: Request)
    requires Queue(s) && Enabled(s, Event.Request(r))
    ensures Queue(After(s, Event.Request(r)))
  {
    hide LockChain.Ordered;
    LockChain.OrderedStep(s.chain, LockChain.Acquire);
  }

  lemma {:induction false} QueueEnter(s: State, k: nat)
    requires Queue(s) && Enabled(s, Enter(k))
    ensures k == s.execCount && !Busy(s)
    ensures Queue(After(s, Enter(k))) && Busy(After(s, Enter(k)))
  {
    LockChain.NextEntry(s.chain, LockChain.Enter(k), s.execCount);
    LockChain.OrderedStep(s.chain, LockChain.Enter(k));
    assert s.chain.resolved[k];
  }

  lemma {:induction false} QueueFinish(s: State, k: nat)
    requires Queue(s) && Enabled(s, Finish(k))
    ensures k == s.execCount - 1 && Busy(s)
    ensures Queue(After(s, Finish(k))) && !Busy(After(s, Finish(k)))
  {
    hide OutcomeOf;
    LockChain.OrderedStep(s.chain, LockChain.Release(k));
    LockChain.NextEntry(s.chain, LockChain.Release(k), s.execCount);
    assert s.chain.entered[s.execCount - 1] && s.chain.resolved[s.execCount - 1];
  }

  lemma {:induction false} QuietConcat(a: seq<Atom>, b: seq<Atom>)
    requires Quiet(a) && Quiet(b)
    ensures Quiet(a + b)
  {
  }

  lemma {:induction false} WindowEnter(s: State, k: nat)
    requires Queue(s) && Window(s) && Enabled(s, Enter(k))
    ensures Window(After(s, Enter(k)))
  {
    hide Queue, AtomsOf, Quiet, QuietItems, IsNoise, LockChain.Enabled, LockChain.After;
    QueueEnter(s, k);
    QuietAreItems(s.pending);
    var t := After(s, Enter(k));
    assert t.written[|t.written| - |t.pending|..] == t.pending;
    assert Flat(t.written[..0]) == "";
    assert Busy(t);
    assert Delivered(t.buffer, |s.buffer|, t.written, t.pending);
  }

  lemma {:induction false} DeliveredWrite(
      buffer: string, cursor: nat, written: seq<Atom>, pending: seq<Atom>, atoms: seq<Atom>)
    requires Delivered(buffer, cursor, written, pending)
    ensures Delivered(buffer, cursor, written + atoms, pending + atoms)
  {
    hide Flat;
    var n := |written| - |pending|;
    assert (written + atoms)[..n] == written[..n];
    assert (written + atoms)[n..] == written[n..] + atoms;
  }

  lemma {:induction false} DeliveredMore(
      buffer: string, cursor: nat, written: seq<Atom>, pending: seq<Atom>, n: nat)
    requires Delivered(buffer, cursor, written, pending) && n <= |pending|
    ensures Delivered(buffer + Flat(pending[..n]), cursor, written, pending[n..])
  {
    hide Flat;
    var at := |written| - |pending|;
    FlatConcat(written[..at], pending[..n]);
    assert written[..at + n] == written[..at] + pending[..n];
    assert (buffer + Flat(pending[..n]))[cursor..] == buffer[cursor..] + Flat(pending[..n]);
    assert written[at + n..] == pending[n..];
  }

  lemma {:induction false} WindowTake(s: State, items: seq<Item>)
    requires Window(s) && Enabled(s, Take(items))
    ensures Window(After(s, Take(items))) && |After(s, Take(items)).answers| == s.execCount
  {
    hide Flat, AtomsOf, Quiet, IsNoise, Sentinel, AllClean;
    var n := s.execCount;
    var t := After(s, Take(items));
    DeliveredWrite(s.buffer, s.calls[n - 1].phase.cursor, s.written, s.pending, AnswerAtoms(items, n));
    AtomsConcat(s.noise, items);
    assert t.answers[n - 1].items == items;
    assert t.written == AnswerAtoms(s.noise + items, n);
    assert t.written[|t.written|..] == [];
    NothingQuiet();
    assert t.stdin == [];
    assert Complete(t.written, s.noise + items, n);
  }

  lemma {:induction false} NothingQuiet()
    ensures Quiet([])
  {
  }

  lemma {:induction false} WindowPrompt(s: State, c: bool)
    requires Window(s)
    ensures Window(After(s, ShowPrompt(c)))
  {
    hide Flat, AtomsOf, Quiet, IsNoise, Delivered, Complete;
    assert Quiet([Whole(c)]) by { OneQuiet(c); }
    var t := After(s, ShowPrompt(c));
    if Busy(s) {
      DeliveredWrite(s.buffer, s.calls[s.execCount - 1].phase.cursor, s.written, s.pending, [Whole(c)]);
      if s.stdin == [] {
        CompleteMore(s.written, s.noise + s.answers[s.execCount - 1].items, s.execCount, c);
      } else {
        AtomsConcat(s.noise, [Prompt(c)]);
        OnePrompt(s.noise, c);
        QuietConcat(s.written, [Whole(c)]);
      }
    } else {
      QuietConcat(s.pending, [Whole(c)]);
    }
  }

  lemma {:induction false} OneQuiet(c: bool)
    ensures Quiet([Whole(c)])
  {
  }

  lemma {:induction false} OnePrompt(noise: seq<Item>, c: bool)
    requires IsNoise(noise)
    ensures IsNoise(noise + [Prompt(c)]) && AtomsOf([Prompt(c)]) == [Whole(c)]
  {
    assert AtomsOf([Prompt(c)][1..]) == [];
  }

  lemma {:induction false} CompleteMore(written: seq<Atom>, items: seq<Item>, id: nat, c: bool)
    requires Complete(written, items, id)
    ensures Complete(written + [Whole(c)], items, id)
  {
    hide AnswerAtoms, Quiet;
    var n := |AnswerAtoms(items, id)|;
    OneQuiet(c);
    QuietConcat(written[n..], [Whole(c)]);
    assert (written + [Whole(c)])[n..] == written[n..] + [Whole(c)];
  }

  lemma {:induction false} WindowDeliver(s: State, n: nat)
    requires Window(s) && Enabled(s, Deliver(n))
    ensures Window(After(s, Deliver(n)))
  {
    hide Flat, AtomsOf, IsNoise, Complete, Delivered;
    if Busy(s) {
      DeliveredMore(s.buffer, s.calls[s.execCount - 1].phase.cursor, s.written, s.pending, n);
    } else {
      assert forall a <- s.pending[n..] :: a in s.pending;
    }
  }

  /** The sentinel is only found once all of the answer has been delivered, and
      the window then is exactly the request's own output. */
  lemma {:induction false} CutIsOwn(
      buffer: string, cursor: nat, written: seq<Atom>, pending: seq<Atom>, items: seq<Item>, id: nat)
    requires Delivered(buffer, cursor, written, pending) && Complete(written, items, id)
    requires AllClean(items) && SentinelSeen(buffer, cursor, Sentinel(id))
    ensures Quiet(pending)
    ensures UpToLineEnd(WindowOf(buffer, cursor, Sentinel(id)), Printed(items) + Sentinel(id))
  {
    hide Sentinel, Flat, AllClean, WindowOf, SentinelSeen, Quiet, AnswerAtoms;
    var seen, shown := buffer[..cursor], buffer[cursor..];
    assert buffer == seen + shown;
    var m := |written| - |pending|;
    FlatPrefix(written, m);
    CompleteText(written, items, id);
    WindowIs(seen, shown, items, id, Flat(written[|AnswerAtoms(items, id)|..]));
    PendingQuiet(written, m, items, id);
  }

  lemma {:induction false} NotSeenYet(
      buffer: string, cursor: nat, written: seq<Atom>, pending: seq<Atom>, noise: seq<Item>, id: nat)
    requires Delivered(buffer, cursor, written, pending) && written == AtomsOf(noise) && IsNoise(noise)
    ensures !SentinelSeen(buffer, cursor, Sentinel(id))
  {
    hide Sentinel, Flat, AllClean, SentinelSeen, AtomsOf, IsNoise;
    var seen, shown := buffer[..cursor], buffer[cursor..];
    assert buffer == seen + shown;
    NoiseHasNoRows(noise);
    FlatPrefix(written, |written| - |pending|);
    NotYetAnswered(noise, seen, shown, id);
  }

  lemma {:induction false} FinishWindow(s: State, k: nat)
    requires Queue(s) && Window(s) && Answered(s) && Enabled(s, Finish(k))
    ensures k + 1 == s.execCount == |s.answers| && Quiet(s.pending)
    ensures UpToLineEnd(WindowOf(s.buffer, s.calls[k].phase.cursor, Sentinel(k + 1)),
                        Printed(s.noise + s.answers[k].items) + Sentinel(k + 1))
  {
    hide Queue, Sentinel, Flat, IsNoise, AllClean, WindowOf, SentinelSeen, Right, Quiet, Delivered, Complete, AtomsOf;
    QueueFinish(s, k);
    RunningId(s, k);
    var cursor := s.calls[k].phase.cursor;
    if |s.answers| == k {
      NotSeenYet(s.buffer, cursor, s.written, s.pending, s.noise, k + 1);
      assert false;
    }
    NoiseHasNoRows(s.noise);
    CleanConcat(s.noise, s.answers[k].items);
    CutIsOwn(s.buffer, cursor, s.written, s.pending, s.noise + s.answers[k].items, k + 1);
  }

  lemma {:induction false} RunningId(s: State, k: nat)
    requires Queue(s) && k < |s.calls| && s.calls[k].phase.Running?
    ensures s.calls[k].phase.id == k + 1
  {
  }

  lemma {:induction false} CleanConcat(a: seq<Item>, b: seq<Item>)
    requires AllClean(a) && AllClean(b)
    ensures AllClean(a + b)
  {
    hide Clean;
  }

  lemma {:induction false} CompleteText(written: seq<Atom>, items: seq<Item>, id: nat)
    requires Complete(written, items, id)
    ensures Flat(written) ==
            Printed(items) + Sentinel(id) + "\n" + Flat(written[|AnswerAtoms(items, id)|..])
  {
    hide AnswerAtoms, Flat, Quiet, Sentinel;
    var front := AnswerAtoms(items, id);
    FlatAnswer(items, id);
    FlatConcat(front, written[|front|..]);
    assert written == front + written[|front|..];
  }

  /** Noise alone shows no sentinel. */
  lemma {:induction false} NotYetAnswered(noise: seq<Item>, seen: string, shown: string, id: nat)
    requires AllClean(noise) && shown <= Flat(AtomsOf(noise))
    ensures !SentinelSeen(seen + shown, |seen|, Sentinel(id))
  {
    hide Sentinel, OccursAt, IndexOf, Printed, AllClean, Flat, AtomsOf;
    var s := Sentinel(id);
    FlatItems(noise);
    IndexOfShift(seen, shown, s, 0);
    IndexOfFinds(shown, s, 0);
    var r := IndexOf(shown, s, 0);
    SentinelShape(id);
    if r >= 0 {
      OccursInPrefix(shown, Printed(noise), s, r);
      assert Printed(noise) + "" == Printed(noise);
      NoneBefore(noise, id, "", r);
    }
  }

  lemma {:induction false} PendingQuiet(written: seq<Atom>, m: nat, items: seq<Item>, id: nat)
    requires Complete(written, items, id) && m <= |written|
    requires |Printed(items) + Sentinel(id)| <= |Flat(written[..m])|
    ensures Quiet(written[m..])
  {
    hide Flat, Sentinel, AtomsOf;
    var n := |AtomsOf(items) + Chars(Sentinel(id))|;
    FlatItems(items);
    FlatChars(Sentinel(id));
    FlatConcat(AtomsOf(items), Chars(Sentinel(id)));
    assert written[..n] == AtomsOf(items) + Chars(Sentinel(id));
    LongerIsLater(written, m, n);
    assert written[n] == Ch('\n');
    forall a | a in written[m..]
      ensures a.Whole? || a.c == '\n'
    {
      var i :| 0 <= i < |written[m..]| && written[m..][i] == a;
      if m + i > n {
        assert a == written[n + 1..][m + i - n - 1];
      }
    }
  }

  lemma {:induction false} OutcomeIsRight(
      r: Request, id: nat, cursor: nat, buffer: string, noise: seq<Item>, answer: Answer)
    requires SentinelSeen(buffer, cursor, Sentinel(id)) && answer.script == Script(r, id)
    requires IsNoise(noise) && AllClean(answer.items)
    requires UpToLineEnd(WindowOf(buffer, cursor, Sentinel(id)), Printed(noise + answer.items) + Sentinel(id))
    ensures Right(Call(r, Done(OutcomeOf(r, id, cursor, buffer))), id, answer)
  {
    hide WindowOf, Sentinel, IsNoise, AllClean, SentinelSeen, Parsed, ResultOf, Printed, UpToLineEnd;
    var items := noise + answer.items;
    var window := WindowOf(buffer, cursor, Sentinel(id));
    NoiseHasNoRows(noise);
    CleanConcat(noise, answer.items);
    match r
    case Exec(_) =>
      WindowReadsBack(items, id, window);
      RowsConcat(noise, answer.items);
      assert RowsOf(items) == RowsOf(answer.items);
    case Dot(_) =>
      NoSelectInWindow(items, id, window);
      PrintedConcat(noise, answer.items);
      assert OutcomeOf(r, id, cursor, buffer) == Output(window);
    case Load(_) =>
  }

  lemma {:induction false} SoundCall(s: State, r: Request)
    requires Sound(s) && Enabled(s, Event.Request(r))
    ensures Sound(After(s, Event.Request(r)))
  {
    hide Queue, AllClean, Right, Delivered, Complete, Quiet, IsNoise, AtomsOf, LockChain.After, LockChain.Enabled;
    QueueCall(s, r);
    BusyBefore(s);
  }

  /** In a state ordered like this a running call is the last that entered. */
  lemma {:induction false} BusyBefore(s: State)
    requires Queue(s)
    ensures s.execCount <= |s.calls| == |s.chain.entered|
    ensures s.execCount < |s.calls| ==> !s.calls[s.execCount].phase.Running?
  {
  }

  lemma {:induction false} SoundEnter(s: State, k: nat)
    requires Sound(s) && Enabled(s, Enter(k))
    ensures Sound(After(s, Enter(k)))
  {
    hide Window, Queue, AllClean, Right, LockChain.After, LockChain.Enabled;
    QueueEnter(s, k);
    WindowEnter(s, k);
    AllAnswered(s);
  }

  lemma {:induction false} AllAnswered(s: State)
    requires Window(s) && !Busy(s)
    ensures |s.answers| == s.execCount && s.stdin == [] && Quiet(s.pending)
  {
  }

  lemma {:induction false} SoundTake(s: State, items: seq<Item>)
    requires Sound(s) && Enabled(s, Take(items))
    ensures Sound(After(s, Take(items)))
  {
    hide Queue, AllClean, Delivered, Complete, Quiet, IsNoise, AtomsOf, AnswerAtoms;
    WindowTake(s, items);
    assert Queue(After(s, Take(items))) by { QueueSame(s, After(s, Take(items))); }
    assert s.stdin[0] == Script(s.calls[s.execCount - 1].request, s.execCount);
  }

  lemma {:induction false} QueueSame(s: State, t: State)
    requires Queue(s) && t.chain == s.chain && t.calls == s.calls && t.execCount == s.execCount
    ensures Queue(t)
  {
  }

  lemma {:induction false} SoundOutput(s: State, e: Event)
    requires Sound(s) && Enabled(s, e) && (e.ShowPrompt? || e.Deliver?)
    ensures Sound(After(s, e))
  {
    hide Queue, AllClean, Window, Right;
    if e.ShowPrompt? {
      WindowPrompt(s, e.continued);
    } else {
      WindowDeliver(s, e.count);
    }
    QueueSame(s, After(s, e));
  }

  lemma {:induction false} SoundFinish(s: State, k: nat)
    requires Sound(s) && Enabled(s, Finish(k))
    ensures Sound(After(s, Finish(k)))
  {
    hide Queue, AllClean, Right, OutcomeOf, Complete, Delivered, Quiet, IsNoise, SentinelSeen;
    hide LockChain.After, LockChain.Enabled;
    var c := s.calls[k];
    RunningId(s, k);
    QueueFinish(s, k);
    FinishWindow(s, k);
    assert Window(After(s, Finish(k)));
    RightScript(c, k + 1, s.answers[k]);
    OutcomeIsRight(c.request, k + 1, c.phase.cursor, s.buffer, s.noise, s.answers[k]);
  }

  lemma {:induction false} RightScript(c: Call, id: nat, answer: Answer)
    requires Right(c, id, answer)
    ensures answer.script == Script(c.request, id)
  {
  }

  lemma {:induction false} SoundStep(s: State, e: Event)
    requires Sound(s) && Enabled(s, e)
    ensures Sound(After(s, e))
  {
    hide Sound, Enabled, After;
    match e
    case Request(r) => SoundCall(s, r);
    case Enter(k) => SoundEnter(s, k);
    case Take(items) => SoundTake(s, items);
    case ShowPrompt(_) => SoundOutput(s, e);
    case Deliver(_) => SoundOutput(s, e);
    case Finish(k) => SoundFinish(s, k);
  }

  lemma {:induction false} SoundRun(banner: string, events: seq<Event>)
    requires Run(Start(banner), events).Some?
    ensures Sound(Run(Start(banner), events).value)
  {
    hide Enabled, After;
    if events != [] {
      hide Sound;
      var front := events[..|events| - 1];
      SoundRun(banner, front);
      SoundStep(Run(Start(banner), front).value, events[|events| - 1]);
    }
  }

  // ----- main results -----

  /** In every run, a finished `exec` holds exactly the rows the CLI printed in
      answer to its own script, in order, split into columns. */
  lemma {:induction false} ExecGetsItsOwnRows(banner: string, events: seq<Event>, k: nat)
    requires Run(Start(banner), events).Some?
    requires var s := Run(Start(banner), events).value;
             k < |s.calls| && s.calls[k].request.Exec? && s.calls[k].phase.Done?
    ensures var s := Run(Start(banner), events).value;
            && k < |s.answers| && s.answers[k].script == Script(s.calls[k].request, k + 1)
            && s.calls[k].phase.outcome.Rows?
            && var sets, rows := s.calls[k].phase.outcome.sets, RowsOf(s.answers[k].items);
               && (sets == [] <==> rows == [])
               && (sets != [] ==> |sets| == 1 && sets[0].columns == [] && sets[0].values == rows)
  {
    hide Run, AllClean;
    SoundRun(banner, events);
    DoneIsAnswered(Run(Start(banner), events).value, k);
  }

  /** If those rows are the rows of a table, the exec returns the table itself
      exactly when no cell contains a bar. */
  lemma {:induction false} ExecGetsItsOwnCells(banner: string, events: seq<Event>, k: nat, table: seq<seq<string>>)
    requires Run(Start(banner), events).Some?
    requires var s := Run(Start(banner), events).value;
             && k < |s.calls| && s.calls[k].request.Exec? && s.calls[k].phase.Done?
             && k < |s.answers| && Prints(s.answers[k].items, table)
    ensures Run(Start(banner), events).value.calls[k].phase.outcome ==
            Rows(if table == [] then [] else [ResultSet([], table)]) <==>
            forall row <- table :: forall c <- row :: '|' !in c
  {
    hide Run, Prints, RowsOf;
    ExecGetsItsOwnRows(banner, events, k);
    TableComesBackIff(Run(Start(banner), events).value.answers[k].items, table);
  }

  lemma {:induction false} DoneIsAnswered(s: State, k: nat)
    requires Sound(s) && k < |s.calls| && s.calls[k].phase.Done?
    ensures k < |s.answers| && Right(s.calls[k], k + 1, s.answers[k])
  {
    hide Queue, Right;
    DoneBefore(s, k);
  }

  lemma {:induction false} DoneBefore(s: State, k: nat)
    requires Queue(s) && Window(s) && k < |s.calls| && s.calls[k].phase.Done?
    ensures k < |s.answers|
  {
  }

  /** A finished dot command holds the noise before its answer, the answer, and
      also the sentinel's own line: with echo off the code's trim never acts. */
  lemma {:induction false} DotOutputKeepsSentinel(banner: string, events: seq<Event>, k: nat)
    requires Run(Start(banner), events).Some?
    requires var s := Run(Start(banner), events).value;
             k < |s.calls| && s.calls[k].request.Dot? && s.calls[k].phase.Done?
    ensures var s := Run(Start(banner), events).value;
            && k < |s.answers| && s.answers[k].script == Script(s.calls[k].request, k + 1)
            && s.calls[k].phase.outcome.Output?
            && exists noise | IsNoise(noise) ::
                 UpToLineEnd(s.calls[k].phase.outcome.text,
                             Printed(noise) + Printed(s.answers[k].items) + Sentinel(k + 1))
  {
    hide Run, AllClean, UpToLineEnd;
    SoundRun(banner, events);
    DoneIsAnswered(Run(Start(banner), events).value, k);
  }

  /** At most one request is between its cursor and its answer. */
  lemma {:induction false} OneRunning(banner: string, events: seq<Event>, j: nat, k: nat)
    requires Run(Start(banner), events).Some?
    requires var s := Run(Start(banner), events).value;
             && j < |s.calls| && k < |s.calls| && s.calls[j].phase.Running? && s.calls[k].phase.Running?
    ensures j == k
  {
    hide Run, Window, Answered;
    SoundRun(banner, events);
    var s := Run(Start(banner), events).value;
    assert s.chain.resolved[j] && s.chain.resolved[k];
  }

  // ----- every request finishes -----

  /** The sentinel is seen once everything written has been delivered. */
  lemma {:induction false} SeenWhenDelivered(buffer: string, cursor: nat, written: seq<Atom>, items: seq<Item>, id: nat)
    requires Delivered(buffer, cursor, written, []) && Complete(written, items, id)
    ensures SentinelSeen(buffer, cursor, Sentinel(id))
  {
    hide Sentinel, Flat, IndexOf, OccursAt, AnswerAtoms, Quiet;
    assert written[..|written|] == written;
    CompleteText(written, items, id);
    var rest := "\n" + Flat(written[|AnswerAtoms(items, id)|..]);
    assert Flat(written) == Printed(items) + Sentinel(id) + rest;
    assert buffer == (buffer[..cursor] + Printed(items)) + Sentinel(id) + rest;
    OccursHere(buffer[..cursor] + Printed(items), Sentinel(id), rest);
    IndexOfFinds(buffer, Sentinel(id), cursor);
  }

  /** While some request is not done the session can move: the next one can
      enter, the CLI can take the script, output can be delivered, or the
      running request can finish. */
  lemma {:induction false} NeverStuck(s: State) returns (e: Event)
    requires Sound(s) && exists k :: 0 <= k < |s.calls| && !s.calls[k].phase.Done?
    ensures Enabled(s, e) && (e.Enter? || e == Take([]) || e.Deliver? || e.Finish?)
  {
    hide AtomsOf, Flat, Sentinel, Quiet, Answered;
    var n := s.execCount;
    if !Busy(s) {
      e := Enter(n);
      EnterNext(s);
    } else if s.stdin != [] {
      e := Take([]);
    } else if s.pending != [] {
      e := Deliver(1);
    } else {
      e := Finish(n - 1);
      hide Complete, IsNoise;
      RunningId(s, n - 1);
      SeenWhenDelivered(s.buffer, s.calls[n - 1].phase.cursor, s.written, s.noise + s.answers[n - 1].items, n);
    }
  }

  lemma {:induction false} EnterNext(s: State)
    requires Queue(s) && !Busy(s) && exists k :: 0 <= k < |s.calls| && !s.calls[k].phase.Done?
    ensures Enabled(s, Enter(s.execCount))
  {
    var k :| 0 <= k < |s.calls| && !s.calls[k].phase.Done?;
    var n := s.execCount;
    if n > 0 {
      assert !s.calls[n - 1].phase.Running?;
      assert s.chain.resolved[n];
      var own := s.chain.resolved[k + 1];
    }
  }

  function BusyRank(s: State): nat {
    if Busy(s) then 1 else 0
  }

  /** A step of the worker or the CLI on the requests there are. */
  predicate IsMove(e: Event) {
    e.Enter? || e.Take? || e.Deliver? || e.Finish?
  }

  /** Each move, whatever the CLI answers, brings the session nearer to the
      end. */
  lemma {:induction false} MoveShrinks(s: State, e: Event)
    requires Sound(s) && Enabled(s, e) && IsMove(e)
    ensures |After(s, e).calls| == |s.calls| >= s.execCount
    ensures var t := After(s, e);
            (|s.calls| - s.execCount, BusyRank(s), |s.stdin|, |s.pending|
             decreases to |t.calls| - t.execCount, BusyRank(t), |t.stdin|, |t.pending|)
  {
    hide Queue, Window, Answered, LockChain.After, OutcomeOf;
    BusyBefore(s);
    if e.Finish? {
      QueueFinish(s, e.owner);
    } else if e.Enter? {
      QueueEnter(s, e.ticket);
    }
  }

  lemma {:induction false} RunPrepend(s: State, e: Event, events: seq<Event>)
    requires Enabled(s, e)
    ensures Run(s, [e] + events) == Run(After(s, e), events)
  {
    hide Enabled, After;
    var all := [e] + events;
    if events == [] {
      assert all[..|all| - 1] == [] && Run(s, []) == Some(s);
    } else {
      RunPrepend(s, e, events[..|events| - 1]);
      assert all[..|all| - 1] == [e] + events[..|events| - 1];
    }
  }

  /** From every reachable state a run of the worker and the CLI alone, with no
      new request, finishes every request made so far. */
  lemma {:induction false} EveryRequestFinishes(s: State) returns (events: seq<Event>)
    requires Sound(s)
    ensures forall e <- events :: e.Enter? || e == Take([]) || e.Deliver? || e.Finish?
    ensures Run(s, events).Some?
    ensures var t := Run(s, events).value;
            |t.calls| == |s.calls| && forall k :: 0 <= k < |t.calls| ==> t.calls[k].phase.Done?
    decreases |s.calls| - s.execCount, BusyRank(s), |s.stdin|, |s.pending|
  {
    hide Sound, Enabled, After, BusyRank;
    if forall k :: 0 <= k < |s.calls| ==> s.calls[k].phase.Done? {
      events := [];
    } else {
      var e := NeverStuck(s);
      MoveShrinks(s, e);
      SoundStep(s, e);
      var more := EveryRequestFinishes(After(s, e));
      events := [e] + more;
      RunPrepend(s, e, more);
    }
  }

  predicate AllDone(s: State) {
    forall k :: 0 <= k < |s.calls| ==> s.calls[k].phase.Done?
  }

  /** A schedule makes some move whenever one is possible. */
  ghost predicate IsSchedule(states: nat -> State, moves: nat -> Event) {
    forall i: nat ::
      (exists e :: IsMove(e) && Enabled(states(i), e)) ==>
        IsMove(moves(i)) && Enabled(states(i), moves(i)) && states(i + 1) == After(states(i), moves(i))
  }

  /** Whatever moves are made and whatever the CLI answers, moves cannot go on
      for ever: every schedule comes to a state with all requests finished. */
  lemma {:induction false} EveryScheduleFinishes(states: nat -> State, moves: nat -> Event, i: nat) returns (n: nat)
    requires Sound(states(i)) && IsSchedule(states, moves)
    ensures n >= i && Sound(states(n)) && AllDone(states(n)) && |states(n).calls| == |states(i).calls|
    decreases |states(i).calls| - states(i).execCount, BusyRank(states(i)), |states(i).stdin|, |states(i).pending|
  {
    hide Sound, Enabled, After, BusyRank;
    if AllDone(states(i)) {
      n := i;
    } else {
      var e := NeverStuck(states(i));
      assert IsMove(e);
      MoveShrinks(states(i), moves(i));
      SoundStep(states(i), moves(i));
      n := EveryScheduleFinishes(states, moves, i + 1);
    }
  }

  // ----- the worker -----

  /** What `waitForStdout` registers: whose wait it is and what it looks for. */
  datatype Waiter = Waiter(ticket: nat, cursor: nat, sentinel: string) {
    predicate Test(buffer: string) {
      SentinelSeen(buffer, cursor, sentinel)
    }
  }

  function StillWaiting(waiters: seq<Waiter>, buffer: string): seq<Waiter> {
    if waiters == [] then []
    else (if waiters[0].Test(buffer) then [] else [waiters[0]]) + StillWaiting(waiters[1..], buffer)
  }

  function Woken(waiters: seq<Waiter>, buffer: string): set<nat> {
    if waiters == [] then {}
    else (if waiters[0].Test(buffer) then {waiters[0].ticket} else {}) + Woken(waiters[1..], buffer)
  }

  lemma {:induction false} WakeNone(buffer: string)
    ensures StillWaiting([], buffer) == [] && Woken([], buffer) == {}
  {
  }

  lemma {:induction false} WakeOne(waiters: seq<Waiter>, i: nat, buffer: string)
    requires i < |waiters|
    ensures StillWaiting(waiters[i..], buffer) ==
            (if waiters[i].Test(buffer) then [] else [waiters[i]]) + StillWaiting(waiters[i + 1..], buffer)
    ensures Woken(waiters[i..], buffer) ==
            (if waiters[i].Test(buffer) then {waiters[i].ticket} else {}) + Woken(waiters[i + 1..], buffer)
  {
    hide Waiter.Test;
    assert waiters[i..][1..] == waiters[i + 1..];
  }

  /** The sentinel of a request that has begun is in the buffer. */
  predicate WaitIsOver(s: State, k: nat) {
    && k < |s.calls|
    && match s.calls[k].phase
       case Waiting => false
       case Running(id, cursor) => SentinelSeen(s.buffer, cursor, Sentinel(id))
       case Done(_) => true
  }

  /** A registered waiter looks for the sentinel of its own request. */
  predicate WaitsForOwn(s: State, w: Waiter) {
    && w.ticket < |s.calls|
    && match s.calls[w.ticket].phase
       case Waiting => false
       case Running(id, cursor) => w.cursor == cursor && w.sentinel == Sentinel(id)
       case Done(_) => true
  }

  lemma {:induction false} OwnTest(s: State, w: Waiter)
    requires WaitsForOwn(s, w) && w.Test(s.buffer)
    ensures WaitIsOver(s, w.ticket)
  {
  }

  lemma {:induction false} WokenAreOver(s: State, waiters: seq<Waiter>)
    requires forall w <- waiters :: WaitsForOwn(s, w)
    ensures forall k <- Woken(waiters, s.buffer) :: WaitIsOver(s, k)
    ensures forall w <- StillWaiting(waiters, s.buffer) :: WaitsForOwn(s, w)
  {
    hide WaitIsOver, WaitsForOwn, Waiter.Test;
    if waiters != [] {
      var w := waiters[0];
      WokenAreOver(s, waiters[1..]);
      if w.Test(s.buffer) {
        OwnTest(s, w);
      }
    }
  }

  /** Output never unmakes a match. */
  lemma {:induction false} SeenStaysSeen(buffer: string, more: string, cursor: nat, sentinel: string)
    requires SentinelSeen(buffer, cursor, sentinel)
    ensures SentinelSeen(buffer + more, cursor, sentinel)
  {
    hide OccursAt, IndexOf;
    IndexOfFinds(buffer, sentinel, cursor);
    OccursInPrefix(buffer, buffer + more, sentinel, IndexOf(buffer, sentinel, cursor));
    IndexOfFinds(buffer + more, sentinel, cursor);
  }

  /** Nothing that happens makes a finished wait unfinished, or a waiter wait
      for another's sentinel. */
  lemma {:induction false} WaitsKept(s: State, e: Event, k: nat)
    requires Sound(s) && Enabled(s, e)
    ensures WaitIsOver(s, k) ==> WaitIsOver(After(s, e), k)
  {
    hide Sound, SentinelSeen, OutcomeOf, QuietItems, Quiet;
    if WaitIsOver(s, k) {
      if e.Deliver? && s.calls[k].phase.Running? {
        var p := s.calls[k].phase;
        SeenStaysSeen(s.buffer, Flat(s.pending[..e.count]), p.cursor, Sentinel(p.id));
      } else if e.Enter? {
        EntersFresh(s, e.ticket);
      }
    }
  }

  lemma {:induction false} WaitersKept(s: State, e: Event, w: Waiter)
    requires Sound(s) && Enabled(s, e) && WaitsForOwn(s, w)
    ensures WaitsForOwn(After(s, e), w)
  {
    hide Sound, SentinelSeen, OutcomeOf, QuietItems, Quiet;
    if e.Enter? {
      EntersFresh(s, e.ticket);
    }
  }

  lemma {:induction false} EntersFresh(s: State, k: nat)
    requires Sound(s) && Enabled(s, Enter(k))
    ensures s.calls[k].phase.Waiting?
  {
    hide Window, Answered;
    QueueEnter(s, k);
  }

  lemma {:induction false} SoundQueue(s: State)
    requires Sound(s)
    ensures |s.calls| == |s.chain.entered|
    ensures forall k :: 0 <= k < |s.calls| && s.calls[k].phase.Running? ==>
              s.calls[k].phase.id == k + 1 && LockChain.Enabled(s.chain, LockChain.Release(k))
  {
    hide Window, Answered;
  }

  /** The worker's `state` object. The ghost field is the session as the whole
      of worker and CLI; the others are the worker's own. */
  class Worker {
    var stdoutBuffer: string
    var execCount: nat
    var stdinQueue: seq<string>
    var stdoutWaiters: seq<Waiter>
    var resolvedWaits: set<nat>
    const lock: LockChain.Mutex
    ghost var session: State

    ghost predicate Valid()
      reads this, lock
    {
      && lock.Valid() && Sound(session)
      && session.chain == lock.Abs()
      && session.buffer == stdoutBuffer && session.execCount == execCount && Texts(session.stdin) == stdinQueue
      && (forall k <- resolvedWaits :: WaitIsOver(session, k))
      && (forall w <- stdoutWaiters :: WaitsForOwn(session, w))
    }

    constructor (banner: string)
      ensures Valid() && fresh(lock) && session == Start(banner)
    {
      stdoutBuffer, execCount, stdinQueue, stdoutWaiters, resolvedWaits := banner, 0, [], [], {};
      lock := new LockChain.Mutex();
      session := Start(banner);
      new;
      SoundRun(banner, []);
    }

    /** The history takes one step; what was waited for stays so. */
    ghost method Step(e: Event)
      requires Sound(session) && Enabled(session, e)
      requires forall k <- resolvedWaits :: WaitIsOver(session, k)
      requires forall w <- stdoutWaiters :: WaitsForOwn(session, w)
      modifies this`session
      ensures Sound(session) && session == After(old(session), e)
      ensures forall k <- resolvedWaits :: WaitIsOver(session, k)
      ensures forall w <- stdoutWaiters :: WaitsForOwn(session, w)
    {
      hide *;
      SoundStep(session, e);
      forall k | k in resolvedWaits
        ensures WaitIsOver(After(session, e), k)
      {
        WaitsKept(session, e, k);
      }
      forall w | w in stdoutWaiters
        ensures WaitsForOwn(After(session, e), w)
      {
        WaitersKept(session, e, w);
      }
      session := After(session, e);
    }

    /** A request arrives: its handler runs up to `await acquireLock()`. */
    method Call(r: Request) returns (wait: nat, release: nat)
      requires Valid()
      modifies this`session, lock
      ensures Valid() && session == After(old(session), Event.Request(r))
      ensures wait == |old(session.calls)| && release == wait + 1
    {
      hide Sound, SentinelSeen, WaitIsOver, WaitsForOwn;
      SoundQueue(session);
      Step(Event.Request(r));
      wait, release := lock.AcquireLock();
    }

    /** The handler holds the lock: up to the wait for its sentinel. */
    method Begin(r: Request, wait: nat) returns (id: nat, cursorBefore: nat)
      requires Valid() && wait < |session.calls| && session.calls[wait].request == r
      requires Enabled(session, Enter(wait))
      modifies this, lock
      ensures Valid() && session == After(old(session), Enter(wait))
      ensures session.calls[wait].phase == Running(id, cursorBefore)
    {
      hide Sound, SentinelSeen, QuietItems, Quiet, WaitIsOver, WaitsForOwn;
      Step(Enter(wait));
      lock.Enter(wait);
      execCount := execCount + 1;
      id := execCount;
      cursorBefore := |stdoutBuffer|;
      stdinQueue := stdinQueue + [UserLine(r) + "\nSELECT '" + Sentinel(id) + "';\n"];
    }

    /** `waitForStdout`: at once if the sentinel is there, else registered. */
    method WaitForStdout(wait: nat, id: nat, cursorBefore: nat)
      requires Valid() && wait < |session.calls| && session.calls[wait].phase == Running(id, cursorBefore)
      modifies this`stdoutWaiters, this`resolvedWaits
      ensures Valid()
      ensures wait in resolvedWaits || Waiter(wait, cursorBefore, Sentinel(id)) in stdoutWaiters
    {
      hide Sound, SentinelSeen;
      var waiter := Waiter(wait, cursorBefore, Sentinel(id));
      if waiter.Test(stdoutBuffer) {
        resolvedWaits := resolvedWaits + {wait};
      } else {
        stdoutWaiters := stdoutWaiters + [waiter];
      }
    }

    /** `wakeStdoutWaiters`: those whose sentinel is there leave the list, the
        others stay in order. */
    method WakeStdoutWaiters()
      modifies this`stdoutWaiters, this`resolvedWaits
      ensures stdoutWaiters == StillWaiting(old(stdoutWaiters), stdoutBuffer)
      ensures resolvedWaits == old(resolvedWaits) + Woken(old(stdoutWaiters), stdoutBuffer)
    {
      hide *;
      var all := stdoutWaiters;
      var next: seq<Waiter> := [];
      assert all[0..] == all;
      for i := 0 to |all|
        invariant next + StillWaiting(all[i..], stdoutBuffer) == StillWaiting(all, stdoutBuffer)
        invariant resolvedWaits + Woken(all[i..], stdoutBuffer) == old(resolvedWaits) + Woken(all, stdoutBuffer)
      {
        WakeOne(all, i, stdoutBuffer);
        if !all[i].Test(stdoutBuffer) {
          next := next + [all[i]];
        } else {
          resolvedWaits := resolvedWaits + {all[i].ticket};
        }
      }
      assert all[|all|..] == [];
      WakeNone(stdoutBuffer);
      stdoutWaiters := next;
    }

    /** A chunk of output arrives. */
    method OnStdout(chunk: string, ghost count: nat)
      requires Valid() && Enabled(session, Deliver(count)) && chunk == Flat(session.pending[..count])
      modifies this
      ensures Valid() && session == After(old(session), Deliver(count))
    {
      hide Sound, SentinelSeen, WaitIsOver, WaitsForOwn, Flat;
      Step(Deliver(count));
      stdoutBuffer := stdoutBuffer + chunk;
      WokenAreOver(session, stdoutWaiters);
      WakeStdoutWaiters();
    }

    /** The CLI reads the next script and answers it. */
    method ReadStdin(ghost items: seq<Item>) returns (script: string)
      requires Valid() && Enabled(session, Take(items))
      modifies this
      ensures Valid() && session == After(old(session), Take(items))
      ensures script == old(session.stdin[0]).Text() && [script] + stdinQueue == old(stdinQueue)
    {
      hide Sound, SentinelSeen, WaitIsOver, WaitsForOwn, AnswerAtoms;
      Step(Take(items));
      script := stdinQueue[0];
      stdinQueue := stdinQueue[1..];
    }

    /** `handleExec` after its wait returned. */
    method FinishExec(wait: nat, id: nat, cursorBefore: nat) returns (rows: seq<ResultSet>)
      requires Valid() && wait in resolvedWaits
      requires session.calls[wait].request.Exec? && session.calls[wait].phase == Running(id, cursorBefore)
      modifies this`session, lock
      ensures Valid() && Enabled(old(session), Finish(wait)) && session == After(old(session), Finish(wait))
      ensures session.calls[wait].phase == Done(Rows(rows))
      ensures wait < |session.answers| && session.answers == old(session.answers)
      ensures rows == [] <==> RowsOf(session.answers[wait].items) == []
      ensures rows != [] ==>
                |rows| == 1 && rows[0].columns == [] && rows[0].values == RowsOf(session.answers[wait].items)
    {
      hide Sound, Parsed, IndexOf, Sentinel, RowsOf, LineRows, Split;
      SoundQueue(session);
      var sentinel := Sentinel(id);
      var window := CutWindow(cursorBefore, sentinel);
      rows := ParseCliWindow(window, sentinel);
      hide WaitIsOver, WaitsForOwn;
      Step(Finish(wait));
      DoneIsAnswered(session, wait);
      lock.Release(wait + 1);
    }

    /** `handleExecDotCommand` after its wait returned. */
    method FinishDot(wait: nat, id: nat, cursorBefore: nat) returns (output: string)
      requires Valid() && wait in resolvedWaits
      requires session.calls[wait].request.Dot? && session.calls[wait].phase == Running(id, cursorBefore)
      modifies this`session, lock
      ensures Valid() && Enabled(old(session), Finish(wait)) && session == After(old(session), Finish(wait))
      ensures session.calls[wait].phase == Done(Output(output))
    {
      hide Sound, Parsed, IndexOf;
      SoundQueue(session);
      var sentinel := Sentinel(id);
      var window := CutWindow(cursorBefore, sentinel);
      var start := IndexOf(window, "SELECT '" + sentinel + "'", 0);
      output := if start >= 0 then window[..start] else window;
      hide WaitIsOver, WaitsForOwn;
      Step(Finish(wait));
      lock.Release(wait + 1);
    }

    /** `issueDotLoad` after its wait returned. */
    method FinishLoad(wait: nat, id: nat, cursorBefore: nat)
      requires Valid() && wait in resolvedWaits
      requires session.calls[wait].request.Load? && session.calls[wait].phase == Running(id, cursorBefore)
      modifies this`session, lock
      ensures Valid() && Enabled(old(session), Finish(wait)) && session == After(old(session), Finish(wait))
      ensures session.calls[wait].phase == Done(Loaded)
    {
      hide Sound, WindowOf, IndexOf;
      SoundQueue(session);
      hide WaitIsOver, WaitsForOwn;
      Step(Finish(wait));
      lock.Release(wait + 1);
    }

    method CutWindow(cursorBefore: nat, sentinel: string) returns (window: string)
      requires SentinelSeen(stdoutBuffer, cursorBefore, sentinel)
      ensures window == WindowOf(stdoutBuffer, cursorBefore, sentinel)
    {
      var sentinelIdx := IndexOf(stdoutBuffer, sentinel, cursorBefore);
      var endIdx := IndexOf(stdoutBuffer, "\n", sentinelIdx);
      if endIdx < 0 {
        endIdx := |stdoutBuffer|;
      } else {
        endIdx := endIdx + 1;
      }
      window := stdoutBuffer[cursorBefore..endIdx];
    }
  }
}
