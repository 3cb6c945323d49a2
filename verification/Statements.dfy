/** The prepare, step and finalize methods of the SQLite runtime provider, with
    execute beside them (host/src/compose_provider.rs:171-192, 1784-1833 and
    1984-2090).

    The database engine is a parameter: what it accepts, and what running a
    statement does to it and returns. */
module Statements {
  import opened Text

  // ----- values -----

  /** Floats are their 64 bits. */
  type Float = nat

  datatype Value =
    | Null
    | Integer(i: int)
    | Real(f: Float)
    | Text(s: string)
    | Blob(b: Bytes)
    | WitValue(typeId: Bytes, bytes: Bytes, symbolicName: string)

  datatype Cbor =
    | CNull
    | CBool(flag: bool)
    | CInteger(i: int)
    | CFloat(f: Float)
    | CText(s: string)
    | CBytes(b: Bytes)
    | CArray(items: seq<Cbor>)
    | CMap(entries: seq<(Cbor, Cbor)>)
    | CTag(tag: nat, content: Cbor)

  predicate IsI64(i: int) {
    -0x8000_0000_0000_0000 <= i < 0x8000_0000_0000_0000
  }

  function CborToDb(v: Cbor): Option<Value> {
    match v
    case CNull => Some(Null)
    case CBool(b) => Some(Integer(if b then 1 else 0))
    case CInteger(i) => if IsI64(i) then Some(Integer(i)) else None
    case CFloat(f) => Some(Real(f))
    case CText(s) => Some(Text(s))
    case CBytes(b) => Some(Blob(b))
    case _ => None
  }

  function DbToCbor(v: Value): Cbor {
    match v
    case Null => CNull
    case Integer(i) => CInteger(i)
    case Real(f) => CFloat(f)
    case Text(s) => CText(s)
    case Blob(b) => CBytes(b)
    case WitValue(typeId, bytes, name) =>
      CMap([(CText("type_id"), CBytes(typeId)), (CText("bytes"), CBytes(bytes)), (CText("symbolic_name"), CText(name))])
  }

  /** A database value survives the channel exactly when it is no wit-value. */
  lemma {:induction false} ValueRoundTripIff(v: Value)
    requires v.Integer? ==> -0x8000_0000_0000_0000 <= v.i <= 0x7FFF_FFFF_FFFF_FFFF
    ensures CborToDb(DbToCbor(v)) == Some(v) <==> !v.WitValue?
    ensures v.WitValue? ==> CborToDb(DbToCbor(v)) == None
  {
  }

  /** Two different database values never look the same on the channel. */
  lemma {:induction false} EncodingIsInjective(v: Value, w: Value)
    requires DbToCbor(v) == DbToCbor(w)
    ensures v == w
  {
    if v.WitValue? && w.WitValue? {
      var a, b := DbToCbor(v).entries, DbToCbor(w).entries;
      assert a[0] == b[0] && a[1] == b[1] && a[2] == b[2];
    }
  }

  /** What a caller sends comes back as it was sent exactly when the provider
      accepts it and it is no boolean. */
  lemma {:induction false} ParamRoundTripIff(v: Cbor)
    ensures CborToDb(v).Some? && DbToCbor(CborToDb(v).value) == v <==> CborToDb(v).Some? && !v.CBool?
  {
  }

  /** Which parameters are taken, and as what: a boolean as 1 or 0, integers of
      64 bits, anything else as the value whose cell it is. */
  lemma {:induction false} ParamIs(v: Cbor)
    ensures CborToDb(v).Some? <==>
            match v
            case CInteger(i) => -0x8000_0000_0000_0000 <= i <= 0x7FFF_FFFF_FFFF_FFFF
            case _ => !v.CArray? && !v.CMap? && !v.CTag?
    ensures CborToDb(v).Some? ==>
              if v == CBool(true) then CborToDb(v).value == Integer(1)
              else if v == CBool(false) then CborToDb(v).value == Integer(0)
              else IsCell(v, CborToDb(v).value)
  {
  }

  type Row = seq<Value>

  function EncodeRow(r: Row): seq<Cbor> {
    seq(|r|, i requires 0 <= i < |r| => DbToCbor(r[i]))
  }

  /** What a cell of a reply is for a value: the value itself in CBOR, or for a
      wit-value its three fields by name. */
  predicate IsCell(c: Cbor, v: Value) {
    match v
    case Null => c == CNull
    case Integer(i) => c == CInteger(i)
    case Real(f) => c == CFloat(f)
    case Text(s) => c == CText(s)
    case Blob(b) => c == CBytes(b)
    case WitValue(typeId, bytes, name) =>
      && c.CMap? && |c.entries| == 3
      && c.entries[0] == (CText("type_id"), CBytes(typeId))
      && c.entries[1] == (CText("bytes"), CBytes(bytes))
      && c.entries[2] == (CText("symbolic_name"), CText(name))
  }

  /** The cells are those of the row's values, in order, and read back as them
      unless they are wit-values. */
  predicate IsRowOf(cells: seq<Cbor>, row: Row) {
    && |cells| == |row|
    && forall j :: 0 <= j < |row| ==>
         && IsCell(cells[j], row[j])
         && (!row[j].WitValue? && (row[j].Integer? ==> IsI64(row[j].i)) ==> CborToDb(cells[j]) == Some(row[j]))
  }

  lemma {:induction false} EncodedRow(r: Row)
    ensures IsRowOf(EncodeRow(r), r)
  {
    forall j | 0 <= j < |r|
      ensures IsCell(EncodeRow(r)[j], r[j])
    {
    }
  }

  // ----- the provider -----

  datatype Engine<!D> = Engine(
    valid: (D, string) -> bool,
    run: (D, string, seq<Value>) -> (D, Option<seq<Row>>),
    changes: D -> int,
    lastRowid: D -> int)

  datatype PreparedStmt = PreparedStmt(sql: string, cursor: Option<seq<Row>>)

  datatype State<D> = State(conn: Option<D>, stmts: map<nat, PreparedStmt>, nextStmtId: nat)

  const U64_MAX := 0xFFFF_FFFF_FFFF_FFFF

  datatype Request<D> =
    | Prepare(sql: string)
    | Step(id: nat)
    | Finalize(id: nat)
    | Execute(sql: string, params: seq<Value>)
    | SwitchDb(db: Option<D>)

  datatype Reply =
    | Prepared(id: nat)
    | StepRow(row: seq<Cbor>)
    | StepDone
    | Executed(changes: int, lastRowid: int)
    | Finished
    | Failed

  /** `wrapping_add(1).max(1)` on 64 bits. */
  function NextId(id: nat): nat {
    var wrapped := (id + 1) % (U64_MAX + 1);
    if wrapped < 1 then 1 else wrapped
  }

  function Apply<D>(e: Engine<D>, s: State<D>, r: Request<D>): (State<D>, Reply) {
    match r
    case Prepare(sql) =>
      if s.conn.None? || !e.valid(s.conn.value, sql) then (s, Failed)
      else (s.(stmts := s.stmts[s.nextStmtId := PreparedStmt(sql, None)], nextStmtId := NextId(s.nextStmtId)),
            Prepared(s.nextStmtId))
    case Step(id) =>
      if id !in s.stmts then (s, Failed)
      else if s.stmts[id].cursor.Some? then Stepped(s, id, s.stmts[id].cursor.value)
      else if s.conn.None? || !e.valid(s.conn.value, s.stmts[id].sql) then (s, Failed)
      else
        var (db, rows) := e.run(s.conn.value, s.stmts[id].sql, []);
        if rows.None? then (s.(conn := Some(db)), Failed) else Stepped(s.(conn := Some(db)), id, rows.value)
    case Finalize(id) => (s.(stmts := s.stmts - {id}), Finished)
    case Execute(sql, params) =>
      if s.conn.None? || !e.valid(s.conn.value, sql) then (s, Failed)
      else
        var (db, rows) := e.run(s.conn.value, sql, params);
        (s.(conn := Some(db)), if rows.None? then Failed else Executed(e.changes(db), e.lastRowid(db)))
    case SwitchDb(db) => (s.(conn := db), Finished)
  }

  /** Taking the first row of what is left. */
  function Stepped<D>(s: State<D>, id: nat, rows: seq<Row>): (State<D>, Reply)
    requires id in s.stmts
  {
    if rows == [] then (s.(stmts := s.stmts[id := s.stmts[id].(cursor := Some([]))]), StepDone)
    else (s.(stmts := s.stmts[id := s.stmts[id].(cursor := Some(rows[1..]))]), StepRow(EncodeRow(rows[0])))
  }

  class SqliteRuntime<!D> {
    var conn: Option<D>
    var stmts: map<nat, PreparedStmt>
    var nextStmtId: nat
    const engine: Engine<D>

    ghost function Abs(): State<D>
      reads this
    {
      State(conn, stmts, nextStmtId)
    }

    constructor (engine: Engine<D>, conn: Option<D>)
      ensures Abs() == State(conn, map[], 1) && this.engine == engine
    {
      this.engine, this.conn, this.stmts, this.nextStmtId := engine, conn, map[], 1;
    }

    method Prepare(sql: string) returns (r: Reply)
      modifies this`stmts, this`nextStmtId
      ensures (Abs(), r) == Apply(engine, old(Abs()), Request.Prepare(sql))
      ensures if old(conn).Some? && engine.valid(old(conn).value, sql)
              then r == Prepared(old(nextStmtId)) && stmts == old(stmts)[old(nextStmtId) := PreparedStmt(sql, None)]
              else r == Failed && stmts == old(stmts)
    {
      if conn.None? { return Failed; }
      if !engine.valid(conn.value, sql) { return Failed; }
      var id := nextStmtId;
      nextStmtId := NextId(id);
      stmts := stmts[id := PreparedStmt(sql, None)];
      r := Prepared(id);
    }

    /** The cursor is filled on the first step and then emptied from the front. */
    method Step(id: nat) returns (r: Reply)
      modifies this`stmts, this`conn
      ensures (Abs(), r) == Apply(engine, old(Abs()), Request.Step(id))
      ensures id in old(stmts) && old(stmts[id]).cursor.Some? ==>
                var rows := old(stmts[id]).cursor.value;
                && (rows == [] ==> r == StepDone)
                && (rows == [] ==> stmts == old(stmts))
                && (rows != [] ==> r.StepRow? && IsRowOf(r.row, rows[0]) && stmts[id].cursor == Some(rows[1..]))
                && conn == old(conn)
      ensures id in old(stmts) && old(stmts[id]).cursor.None? &&
              old(conn).Some? && engine.valid(old(conn).value, old(stmts[id]).sql) ==>
                var (db, rows) := engine.run(old(conn).value, old(stmts[id]).sql, []);
                && conn == Some(db)
                && (rows.None? ==> r == Failed && stmts == old(stmts))
                && (rows == Some([]) ==> r == StepDone && stmts[id].cursor == Some([]))
                && (rows.Some? && rows.value != [] ==>
                      r.StepRow? && IsRowOf(r.row, rows.value[0]) && stmts[id].cursor == Some(rows.value[1..]))
    {
      if id !in stmts { return Failed; }
      var entry := stmts[id];
      if entry.cursor.None? {
        if conn.None? { return Failed; }
        if !engine.valid(conn.value, entry.sql) { return Failed; }
        var (db, rows) := engine.run(conn.value, entry.sql, []);
        conn := Some(db);
        if rows.None? { return Failed; }
        entry := entry.(cursor := rows);
      }
      var buf := entry.cursor.value;
      if buf != [] {
        EncodedRow(buf[0]);
      }
      hide EncodeRow, IsRowOf;
      if buf == [] {
        r := StepDone;
      } else {
        r := StepRow(EncodeRow(buf[0]));
        buf := buf[1..];
      }
      stmts := stmts[id := entry.(cursor := Some(buf))];
    }

    method Finalize(id: nat) returns (r: Reply)
      modifies this`stmts
      ensures (Abs(), r) == Apply(engine, old(Abs()), Request.Finalize(id))
    {
      stmts := stmts - {id};
      r := Finished;
    }

    method Execute(sql: string, params: seq<Value>) returns (r: Reply)
      modifies this`conn
      ensures (Abs(), r) == Apply(engine, old(Abs()), Request.Execute(sql, params))
      ensures stmts == old(stmts) && nextStmtId == old(nextStmtId)
      ensures old(conn).Some? && engine.valid(old(conn).value, sql) ==>
                var (db, rows) := engine.run(old(conn).value, sql, params);
                && conn == Some(db)
                && r == if rows.Some? then Executed(engine.changes(db), engine.lastRowid(db)) else Failed
      ensures !(old(conn).Some? && engine.valid(old(conn).value, sql)) ==> conn == old(conn) && r == Failed
    {
      if conn.None? { return Failed; }
      if !engine.valid(conn.value, sql) { return Failed; }
      var (db, rows) := engine.run(conn.value, sql, params);
      conn := Some(db);
      r := if rows.None? then Failed else Executed(engine.changes(db), engine.lastRowid(db));
    }
  }

  // ----- runs -----

  function Final<D>(e: Engine<D>, s: State<D>, requests: seq<Request<D>>): State<D>
    decreases |requests|
  {
    if requests == [] then s else Final(e, Apply(e, s, requests[0]).0, requests[1..])
  }

  /** A run is its requests one after the other. */
  lemma {:induction false} FinalIs<D>(e: Engine<D>, s: State<D>, r: Request<D>, rest: seq<Request<D>>)
    ensures Final(e, s, []) == s && Final(e, s, [r] + rest) == Final(e, Apply(e, s, r).0, rest)
  {
    hide Apply;
    assert ([r] + rest)[1..] == rest;
  }

  /** The replies to the steps of one statement. */
  function StepReplies<D>(e: Engine<D>, s: State<D>, requests: seq<Request<D>>, id: nat): seq<Reply>
    decreases |requests|
  {
    if requests == [] then []
    else
      var (t, reply) := Apply(e, s, requests[0]);
      (if requests[0] == Step(id) then [reply] else []) + StepReplies(e, t, requests[1..], id)
  }

  /** The ids handed out, in order. */
  function Issued<D>(e: Engine<D>, s: State<D>, requests: seq<Request<D>>): seq<nat>
    decreases |requests|
  {
    if requests == [] then []
    else
      var (t, reply) := Apply(e, s, requests[0]);
      (if reply.Prepared? then [reply.id] else []) + Issued(e, t, requests[1..])
  }

  /** The rows in order, once each, and then done for ever. */
  function Yield(rows: seq<Row>, n: nat): seq<Reply> {
    seq(n, i requires 0 <= i < n => if i < |rows| then StepRow(EncodeRow(rows[i])) else StepDone)
  }

  /** The replies are the rows in order, once each, and then done for ever. */
  predicate Yields(replies: seq<Reply>, rows: seq<Row>) {
    forall i :: 0 <= i < |replies| ==>
      if i < |rows| then replies[i].StepRow? && IsRowOf(replies[i].row, rows[i]) else replies[i] == StepDone
  }

  lemma {:induction false} YieldIs(rows: seq<Row>, n: nat)
    ensures |Yield(rows, n)| == n && Yields(Yield(rows, n), rows)
  {
    hide EncodeRow, IsRowOf;
    forall i | 0 <= i < n && i < |rows|
      ensures IsRowOf(EncodeRow(rows[i]), rows[i])
    {
      EncodedRow(rows[i]);
    }
  }

  /** As long as ids have not come round again. */
  predicate NotWrapped<D>(s: State<D>) {
    1 <= s.nextStmtId <= U64_MAX && forall id <- s.stmts :: id < s.nextStmtId
  }

  lemma {:induction false} NotWrappedStep<D>(e: Engine<D>, s: State<D>, r: Request<D>)
    requires NotWrapped(s) && (Apply(e, s, r).1.Prepared? ==> s.nextStmtId < U64_MAX)
    ensures NotWrapped(Apply(e, s, r).0)
    ensures var (t, reply) := Apply(e, s, r);
            if reply.Prepared? then reply.id == s.nextStmtId && t.nextStmtId == s.nextStmtId + 1
            else t.nextStmtId == s.nextStmtId
  {
    hide EncodeRow;
  }

  lemma {:induction false} IdsCountUp<D>(e: Engine<D>, s: State<D>, requests: seq<Request<D>>)
    requires NotWrapped(s) && s.nextStmtId + |Issued(e, s, requests)| <= U64_MAX
    ensures NotWrapped(Final(e, s, requests))
    ensures Issued(e, s, requests) == seq(|Issued(e, s, requests)|, i => s.nextStmtId + i)
    ensures Final(e, s, requests).nextStmtId == s.nextStmtId + |Issued(e, s, requests)|
    decreases |requests|
  {
    if requests != [] {
      NotWrappedStep(e, s, requests[0]);
      hide NotWrapped, Apply;
      var (t, reply) := Apply(e, s, requests[0]);
      IdsCountUp(e, t, requests[1..]);
      var rest := Issued(e, t, requests[1..]);
      assert Issued(e, s, requests) == (if reply.Prepared? then [reply.id] else []) + rest;
    }
  }

  /** A statement in mid-run yields what is left of its rows, whatever is done
      with other statements, by execute, or to the connection in between. */
  lemma {:induction false} CursorYields<D>(e: Engine<D>, s: State<D>, requests: seq<Request<D>>, id: nat)
    requires NotWrapped(s) && s.nextStmtId + |Issued(e, s, requests)| <= U64_MAX
    requires id in s.stmts && s.stmts[id].cursor.Some? && Finalize(id) !in requests
    ensures var replies := StepReplies(e, s, requests, id);
            replies == Yield(s.stmts[id].cursor.value, |replies|) && Yields(replies, s.stmts[id].cursor.value)
    decreases |requests|
  {
    hide Yields;
    YieldIs(s.stmts[id].cursor.value, |StepReplies(e, s, requests, id)|);
    if requests != [] {
      var rows := s.stmts[id].cursor.value;
      var t := Apply(e, s, requests[0]).0;
      NotWrappedStep(e, s, requests[0]);
      CursorStep(e, s, requests[0], id);
      assert requests[0] in requests && forall r <- requests[1..] :: r in requests;
      CursorYields(e, t, requests[1..], id);
      hide Apply, NotWrapped, EncodeRow;
      var rest := StepReplies(e, t, requests[1..], id);
      if requests[0] == Step(id) {
        var all := [Apply(e, s, requests[0]).1] + rest;
        assert StepReplies(e, s, requests, id) == all;
        assert all == Yield(rows, |all|);
      } else {
        assert StepReplies(e, s, requests, id) == rest;
      }
    }
  }

  lemma {:induction false} CursorStep<D>(e: Engine<D>, s: State<D>, r: Request<D>, id: nat)
    requires NotWrapped(s) && id in s.stmts && s.stmts[id].cursor.Some? && r != Finalize(id)
    ensures var (t, reply) := Apply(e, s, r);
            var rows := s.stmts[id].cursor.value;
            && id in t.stmts && t.stmts[id].cursor.Some?
            && t.stmts[id].cursor.value == (if r == Step(id) && rows != [] then rows[1..] else rows)
            && (r == Step(id) ==> reply == if rows == [] then StepDone else StepRow(EncodeRow(rows[0])))
  {
    hide EncodeRow;
  }

  /** The first step that succeeds runs the query; from then on the steps of
      the statement yield exactly the rows it had then, in order, once each,
      and then done for ever. */
  lemma {:induction false} StatementYieldsItsRows<D>(
      e: Engine<D>, conn: Option<D>, before: seq<Request<D>>, after: seq<Request<D>>, id: nat)
    requires var start := State(conn, map[], 1);
             |Issued(e, start, before)| + |Issued(e, Final(e, start, before), after)| < 0xFFFF_FFFF_FFFF_FFFF
    requires after != [] && after[0] == Step(id) && Finalize(id) !in after
    requires var s := Final(e, State(conn, map[], 1), before);
             && id in s.stmts && s.stmts[id].cursor.None?
             && s.conn.Some? && e.valid(s.conn.value, s.stmts[id].sql)
             && e.run(s.conn.value, s.stmts[id].sql, []).1.Some?
    ensures var s := Final(e, State(conn, map[], 1), before);
            var replies := StepReplies(e, s, after, id);
            Yields(replies, e.run(s.conn.value, s.stmts[id].sql, []).1.value)
  {
    hide Final, EncodeRow;
    var start: State<D> := State(conn, map[], 1);
    IdsCountUp(e, start, before);
    var s := Final(e, start, before);
    var rows := e.run(s.conn.value, s.stmts[id].sql, []).1.value;
    var (t, reply) := Apply(e, s, after[0]);
    NotWrappedStep(e, s, after[0]);
    assert forall r <- after[1..] :: r in after;
    CursorYields(e, t, after[1..], id);
    var rest := StepReplies(e, t, after[1..], id);
    assert StepReplies(e, s, after, id) == [reply] + rest;
    YieldIs(rows, |rest| + 1);
    hide Yields;
    assert [reply] + rest == Yield(rows, |rest| + 1);
  }

  /** A step that fails leaves every statement as it was, so it can be tried
      again. */
  lemma {:induction false} FailedStepKeepsStatements<D>(e: Engine<D>, s: State<D>, id: nat)
    requires Apply(e, s, Step(id)).1.Failed?
    ensures Apply(e, s, Step(id)).0.stmts == s.stmts
  {
    hide EncodeRow;
  }

  // ----- when ids come round -----

  lemma {:induction false} NextIdIs(id: nat)
    requires 1 <= id <= U64_MAX
    ensures NextId(id) == id % U64_MAX + 1
  {
  }

  lemma {:induction false} StepId<D>(e: Engine<D>, s: State<D>, r: Request<D>)
    ensures var (t, reply) := Apply(e, s, r);
            if reply.Prepared? then reply.id == s.nextStmtId && t.nextStmtId == NextId(s.nextStmtId)
            else t.nextStmtId == s.nextStmtId
  {
    hide EncodeRow, NextId;
  }

  /** The next id, and the ids handed out from `first` on. */
  function IdAt(first: nat, i: nat): nat
    requires first >= 1
  {
    (first - 1 + i) % U64_MAX + 1
  }

  lemma {:induction false} IdAtNext(first: nat, i: nat)
    requires 1 <= first <= U64_MAX
    ensures IdAt(NextId(first), i) == IdAt(first, i + 1) && 1 <= NextId(first) <= U64_MAX
    ensures IdAt(first, 0) == first
  {
    NextIdIs(first);
  }

  lemma {:induction false} RoundFrom(first: nat, rest: seq<nat>)
    requires 1 <= first <= U64_MAX
    requires forall i :: 0 <= i < |rest| ==> rest[i] == IdAt(NextId(first), i)
    ensures forall i :: 0 <= i < |[first] + rest| ==> ([first] + rest)[i] == IdAt(first, i)
    ensures IdAt(NextId(first), |rest|) == IdAt(first, |rest| + 1)
  {
    hide IdAt, NextId;
    IdAtNext(first, 0);
    IdAtNext(first, |rest|);
    var ids := [first] + rest;
    forall i | 0 <= i < |ids|
      ensures ids[i] == IdAt(first, i)
    {
      if i > 0 {
        IdAtNext(first, i - 1);
        assert ids[i] == rest[i - 1];
      }
    }
  }

  /** Ids go round through 1, ..., 2^64 - 1 and are never 0. */
  lemma {:induction false} IssuedGoRound<D>(e: Engine<D>, s: State<D>, requests: seq<Request<D>>)
    requires 1 <= s.nextStmtId <= U64_MAX
    ensures var ids := Issued(e, s, requests);
            && (forall i :: 0 <= i < |ids| ==> ids[i] == IdAt(s.nextStmtId, i))
            && Final(e, s, requests).nextStmtId == IdAt(s.nextStmtId, |ids|)
    decreases |requests|
  {
    hide Apply, IdAt, NextId;
    IdAtNext(s.nextStmtId, 0);
    if requests != [] {
      StepId(e, s, requests[0]);
      var (t, reply) := Apply(e, s, requests[0]);
      IssuedGoRound(e, t, requests[1..]);
      var rest, ids := Issued(e, t, requests[1..]), Issued(e, s, requests);
      if reply.Prepared? {
        RoundFrom(s.nextStmtId, rest);
        assert ids == [s.nextStmtId] + rest;
      } else {
        assert ids == rest;
      }
    }
  }

  /** In a run of a new runtime no id is handed out twice exactly when at most
      2^64 - 1 statements are prepared. */
  lemma {:induction false} IdsDifferIff<D>(e: Engine<D>, conn: Option<D>, requests: seq<Request<D>>)
    ensures var ids := Issued(e, State(conn, map[], 1), requests);
            (forall i, j :: 0 <= i < j < |ids| ==> ids[i] != ids[j]) <==> |ids| <= 0xFFFF_FFFF_FFFF_FFFF
  {
    hide Issued, Final;
    var ids := Issued(e, State(conn, map[], 1), requests);
    IssuedGoRound(e, State(conn, map[], 1), requests);
    if |ids| > U64_MAX {
      assert ids[0] == ids[U64_MAX];
    }
  }

  /** So many prepares, one after the other. */
  function Prepares<D>(sql: string, n: nat): seq<Request<D>> {
    seq(n, _ => Prepare(sql))
  }

  lemma {:induction false} AllPrepared<D>(e: Engine<D>, s: State<D>, sql: string, n: nat)
    requires s.conn.Some? && e.valid(s.conn.value, sql)
    ensures var t := Final(e, s, Prepares(sql, n));
            && t.conn == s.conn
            && |Issued(e, s, Prepares(sql, n))| == n
            && (forall id <- s.stmts :: s.stmts[id] == PreparedStmt(sql, None) ==>
                  id in t.stmts && t.stmts[id] == PreparedStmt(sql, None))
            && (n > 0 ==> s.nextStmtId in t.stmts && t.stmts[s.nextStmtId] == PreparedStmt(sql, None))
    decreases n
  {
    if n > 0 {
      var requests: seq<Request<D>> := Prepares(sql, n);
      assert requests[1..] == Prepares(sql, n - 1);
      AllPrepared(e, Apply(e, s, requests[0]).0, sql, n - 1);
    }
  }

  /** After 2^64 - 1 prepares on a new runtime statement 1 is still open, and
      the next prepare answers with id 1 and replaces it. */
  lemma {:induction false} OpenStatementIsReplaced<D>(e: Engine<D>, db: D, sql: string, other: string)
    requires e.valid(db, sql) && e.valid(db, other)
    ensures var s := Final(e, State(Some(db), map[], 1), Prepares(sql, 0xFFFF_FFFF_FFFF_FFFF));
            var (t, reply) := Apply(e, s, Prepare(other));
            && 1 in s.stmts && s.stmts[1] == PreparedStmt(sql, None)
            && reply == Prepared(1) && t.stmts[1] == PreparedStmt(other, None)
  {
    hide Final, Issued, Prepares;
    var start: State<D> := State(Some(db), map[], 1);
    AllPrepared(e, start, sql, U64_MAX);
    IssuedGoRound(e, start, Prepares(sql, U64_MAX));
  }
}
