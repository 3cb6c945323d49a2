/** The cache of precompiled components (host/src/component_blob_cache.rs:
    101-172, 192-305, 321-350).

    A frame is what `CompileCache` seals: it opens only for the digest, engine
    and key it was sealed with. That, and its 32 bytes of tag, is all that is
    assumed of it; `Garbage` is any blob that was not sealed with the host's
    key. All hosts share the one key. */
module BlobCache {
  import opened Text

  datatype Engine = Engine(version: string, target: string)

  datatype Frame = Sealed(digest: Bytes, engine: Engine, payload: Bytes) | Garbage(bytes: Bytes)

  const TAG_LENGTH := 32

  function Length(f: Frame): nat {
    match f
    case Sealed(_, _, payload) => TAG_LENGTH + |payload|
    case Garbage(bytes) => |bytes|
  }

  /** One row of `_component_cache`. */
  datatype Row = Row(digest: string, engine: Engine, frame: Frame, lastUsed: int)

  function HexDigit(c: char): Option<int> {
    if '0' <= c <= '9' then Some(c as int - '0' as int)
    else if 'a' <= c <= 'f' then Some(c as int - 'a' as int + 10)
    else if 'A' <= c <= 'F' then Some(c as int - 'A' as int + 10)
    else None
  }

  /** `hex::decode`. */
  function Decode(s: string): Option<Bytes> {
    if s == "" then Some([])
    else if |s| == 1 then None
    else
      var hi :- HexDigit(s[0]);
      var lo :- HexDigit(s[1]);
      var rest :- Decode(s[2..]);
      Some([16 * hi + lo] + rest)
  }

  /** Exactly the strings of an even number of hexadecimal digits, of either
      case, decode, two digits to a byte. */
  lemma {:induction false} DecodeIs(s: string)
    ensures Decode(s).Some? <==> |s| % 2 == 0 && forall c <- s :: IsHexDigit(c)
    ensures Decode(s).Some? ==>
              && 2 * |Decode(s).value| == |s|
              && forall i :: 0 <= i < |Decode(s).value| ==>
                   IsNibble(s[2 * i], Decode(s).value[i] / 16) && IsNibble(s[2 * i + 1], Decode(s).value[i] % 16)
    decreases |s|
  {
    hide IsNibble, IsHexDigit;
    if |s| >= 2 {
      DecodeIs(s[2..]);
      DigitIs(s[0]);
      DigitIs(s[1]);
      assert s == [s[0], s[1]] + s[2..];
      var d, rest := Decode(s), Decode(s[2..]);
      if d.Some? {
        forall i | 0 <= i < |d.value|
          ensures IsNibble(s[2 * i], d.value[i] / 16) && IsNibble(s[2 * i + 1], d.value[i] % 16)
        {
          if i > 0 {
            assert d.value[i] == rest.value[i - 1];
            assert s[2 * i] == s[2..][2 * (i - 1)] && s[2 * i + 1] == s[2..][2 * (i - 1) + 1];
          }
        }
      }
    }
  }

  lemma {:induction false} DigitIs(c: char)
    ensures HexDigit(c).Some? <==> IsHexDigit(c)
    ensures HexDigit(c).Some? ==> 0 <= HexDigit(c).value < 16 && IsNibble(c, HexDigit(c).value)
  {
  }

  function SealArtifact(digest: string, engine: Engine, payload: Bytes): Option<Frame> {
    var bytes :- Decode(digest);
    Some(Sealed(bytes, engine, payload))
  }

  function OpenArtifact(digest: string, engine: Engine, frame: Frame): Option<Bytes> {
    var bytes :- Decode(digest);
    if frame.Sealed? && frame.digest == bytes && frame.engine == engine then Some(frame.payload) else None
  }

  // ----- the table -----

  predicate Has(r: Row, digest: string, engine: Engine) {
    r.digest == digest && r.engine == engine
  }

  function Without(rows: seq<Row>, digest: string, engine: Engine): seq<Row> {
    if rows == [] then []
    else (if Has(rows[0], digest, engine) then [] else [rows[0]]) + Without(rows[1..], digest, engine)
  }

  function Stored(rows: seq<Row>, digest: string, engine: Engine, payload: Bytes, now: int): seq<Row> {
    match SealArtifact(digest, engine, payload)
    case None => rows
    case Some(frame) => Without(rows, digest, engine) + [Row(digest, engine, frame, now)]
  }

  /** The row with this key: there is at most one. */
  function Find(rows: seq<Row>, digest: string, engine: Engine): (i: int)
    ensures -1 <= i < |rows|
    ensures i >= 0 ==> Has(rows[i], digest, engine)
  {
    if rows == [] then -1
    else if Has(rows[0], digest, engine) then 0
    else
      var i := Find(rows[1..], digest, engine);
      if i < 0 then -1 else i + 1
  }

  function Looked(rows: seq<Row>, digest: string, engine: Engine, now: int): (seq<Row>, Option<Bytes>) {
    var i := Find(rows, digest, engine);
    if i < 0 then (rows, None)
    else
      var blob := OpenArtifact(digest, engine, rows[i].frame);
      (if blob.Some? then rows[i := rows[i].(lastUsed := now)] else rows, blob)
  }

  function Total(rows: seq<Row>): nat {
    if rows == [] then 0 else Length(rows[0].frame) + Total(rows[1..])
  }

  // ----- eviction -----

  /** The eviction order: least recently used first, then by digest. */
  predicate Before(a: Row, b: Row) {
    a.lastUsed < b.lastUsed || (a.lastUsed == b.lastUsed && Leq(a.digest, b.digest))
  }

  /** The row used longer ago goes first; of two used at the same time, the one
      whose digest is smaller at the first character that differs. */
  lemma {:induction false} BeforeIs(a: Row, b: Row, p: string, c: char, x: string, d: char, y: string)
    ensures a.lastUsed < b.lastUsed ==> Before(a, b) && !Before(b, a)
    ensures a.lastUsed == b.lastUsed && a.digest == p + [c] + x && b.digest == p + [d] + y && c < d ==>
              Before(a, b) && !Before(b, a)
  {
    hide Leq;
    LeqIs(p, c, x, d, y);
  }

  /** Bytes are counted frame by frame: a sealed one has 32 bytes of tag. */
  lemma {:induction false} TotalIs(a: seq<Row>, b: seq<Row>, r: Row)
    ensures Total([]) == 0 && Total(a + b) == Total(a) + Total(b)
    ensures Total([r]) == if r.frame.Sealed? then 32 + |r.frame.payload| else |r.frame.bytes|
  {
    TotalConcat(a, b);
    TotalOne(r);
  }

  lemma {:induction false} BeforeMeans(a: Row, b: Row)
    ensures Before(a, b) <==> a.lastUsed < b.lastUsed || (a.lastUsed == b.lastUsed && Leq(a.digest, b.digest))
  {
  }

  lemma {:induction false} BeforeTransitive(a: Row, b: Row, c: Row)
    requires Before(a, b) && Before(b, c)
    ensures Before(a, c)
  {
    hide Leq;
    if a.lastUsed == b.lastUsed == c.lastUsed {
      LeqTransitive(a.digest, b.digest, c.digest);
    }
  }

  lemma {:induction false} BeforeTotal(a: Row, b: Row)
    ensures Before(a, b) || Before(b, a)
  {
    hide Leq;
    LeqTotal(a.digest, b.digest);
  }

  lemma {:induction false} TotalConcat(a: seq<Row>, b: seq<Row>)
    ensures Total(a + b) == Total(a) + Total(b)
  {
    hide Length;
    if a == [] {
      assert a + b == b;
    } else {
      assert (a + b)[1..] == a[1..] + b;
      TotalConcat(a[1..], b);
    }
  }

  lemma {:induction false} TotalRemove(rows: seq<Row>, i: nat)
    requires i < |rows|
    ensures Total(rows) == Total(rows[..i] + rows[i + 1..]) + Length(rows[i].frame)
  {
    hide Length;
    TotalConcat(rows[..i], rows[i..]);
    TotalConcat(rows[..i], rows[i + 1..]);
    assert rows == rows[..i] + rows[i..];
    assert rows[i..][1..] == rows[i + 1..];
  }

  /** The table after removing `victims`, in the order they went, until the
      total is at most `target`. */
  ghost predicate IsEviction(before: seq<Row>, after: seq<Row>, victims: seq<Row>, target: nat) {
    && multiset(before) == multiset(after) + multiset(victims)
    && Total(before) == Total(after) + Total(victims)
    && Total(after) <= target
    && (forall i, j :: 0 <= i < j < |victims| ==> Before(victims[i], victims[j]))
    && (forall v <- victims, r <- after :: Before(v, r))
    && (victims != [] ==> Total(after) + Length(victims[|victims| - 1].frame) > target)
  }

  /** The loop's state: the same, but not yet down to the target. */
  ghost predicate Evicting(before: seq<Row>, now: seq<Row>, victims: seq<Row>, target: nat) {
    && multiset(before) == multiset(now) + multiset(victims)
    && Total(before) == Total(now) + Total(victims)
    && (forall i, j :: 0 <= i < j < |victims| ==> Before(victims[i], victims[j]))
    && (forall v <- victims, r <- now :: Before(v, r))
    && (victims != [] ==> Total(now) + Length(victims[|victims| - 1].frame) > target)
  }

  lemma {:induction false} EvictOne(before: seq<Row>, now: seq<Row>, victims: seq<Row>, target: nat, i: nat)
    requires Evicting(before, now, victims, target) && i < |now| && Total(now) > target
    requires forall r <- now :: Before(now[i], r)
    ensures Evicting(before, now[..i] + now[i + 1..], victims + [now[i]], target)
  {
    hide Before, Length, Total;
    var left := now[..i] + now[i + 1..];
    TotalRemove(now, i);
    TotalConcat(victims, [now[i]]);
    TotalOne(now[i]);
    assert now == now[..i] + [now[i]] + now[i + 1..];
    assert forall r <- left :: r in now;
    assert now[i] in now;
  }

  lemma {:induction false} TotalOne(r: Row)
    ensures Total([r]) == Length(r.frame)
  {
    assert [r][1..] == [];
  }

  class Connection {
    var rows: seq<Row>

    constructor ()
      ensures rows == []
    {
      rows := [];
    }

    method TotalBytes() returns (n: nat)
      ensures n == Total(rows)
    {
      n := 0;
      for i := 0 to |rows|
        invariant n == Total(rows[..i])
      {
        assert rows[..i + 1] == rows[..i] + [rows[i]];
        TotalConcat(rows[..i], [rows[i]]);
        TotalOne(rows[i]);
        n := n + Length(rows[i].frame);
      }
      assert rows[..|rows|] == rows;
    }

    method Store(digest: string, engine: Engine, payload: Bytes, now: int)
      modifies this
      ensures rows == Stored(old(rows), digest, engine, payload, now)
    {
      var framed := SealArtifact(digest, engine, payload);
      if framed.None? { return; }
      rows := Without(rows, digest, engine) + [Row(digest, engine, framed.value, now)];
    }

    method Lookup(digest: string, engine: Engine, now: int) returns (blob: Option<Bytes>)
      modifies this
      ensures (rows, blob) == Looked(old(rows), digest, engine, now)
      ensures blob.Some? ==>
                exists i :: 0 <= i < |rows| && Has(old(rows)[i], digest, engine) &&
                            rows == old(rows)[i := old(rows)[i].(lastUsed := now)]
      ensures blob.None? ==> rows == old(rows)
    {
      var i := Find(rows, digest, engine);
      if i < 0 { return None; }
      blob := OpenArtifact(digest, engine, rows[i].frame);
      if blob.None? { return None; }
      rows := rows[i := rows[i].(lastUsed := now)];
    }

    method PurgeAll() returns (freed: nat)
      modifies this
      ensures rows == [] && freed == Total(old(rows))
    {
      freed := TotalBytes();
      rows := [];
    }

    /** The first row in eviction order. */
    method PickVictim() returns (v: nat)
      requires rows != []
      ensures v < |rows|
      ensures forall r <- rows ::
                rows[v].lastUsed < r.lastUsed || (rows[v].lastUsed == r.lastUsed && Leq(rows[v].digest, r.digest))
    {
      hide Before;
      v := 0;
      BeforeTotal(rows[0], rows[0]);
      for i := 1 to |rows|
        invariant v < |rows|
        invariant forall j :: 0 <= j < i ==> Before(rows[v], rows[j])
      {
        BeforeTotal(rows[v], rows[i]);
        if !Before(rows[v], rows[i]) {
          forall j | 0 <= j < i
            ensures Before(rows[i], rows[j])
          {
            BeforeTransitive(rows[i], rows[v], rows[j]);
          }
          BeforeTotal(rows[i], rows[i]);
          v := i;
        }
      }
      forall r | r in rows
        ensures rows[v].lastUsed < r.lastUsed || (rows[v].lastUsed == r.lastUsed && Leq(rows[v].digest, r.digest))
      {
        assert Before(rows[v], r);
        BeforeMeans(rows[v], r);
      }
    }

    /** Ends with the total at most the target. */
    method EvictTo(target: nat) returns (freed: nat, ghost victims: seq<Row>)
      modifies this
      ensures IsEviction(old(rows), rows, victims, target)
      ensures freed == Total(old(rows)) - Total(rows)
      ensures Total(rows) <= target
      ensures forall v <- victims, r <- rows ::
                v.lastUsed < r.lastUsed || (v.lastUsed == r.lastUsed && Leq(v.digest, r.digest))
    {
      hide Before, Total, Length;
      freed, victims := 0, [];
      TotalNothing();
      while true
        invariant Evicting(old(rows), rows, victims, target)
        invariant freed == Total(victims)
        decreases |rows|
      {
        var current := TotalBytes();
        if current <= target { break; }
        if rows == [] { break; }
        var v := PickVictim();
        forall r | r in rows
          ensures Before(rows[v], r)
        {
          BeforeMeans(rows[v], r);
        }
        EvictOne(old(rows), rows, victims, target, v);
        TotalConcat(victims, [rows[v]]);
        TotalOne(rows[v]);
        freed := freed + Length(rows[v].frame);
        victims := victims + [rows[v]];
        rows := rows[..v] + rows[v + 1..];
      }
      forall v, r | v in victims && r in rows
        ensures v.lastUsed < r.lastUsed || (v.lastUsed == r.lastUsed && Leq(v.digest, r.digest))
      {
        BeforeMeans(v, r);
      }
    }
  }

  lemma {:induction false} TotalNothing()
    ensures Total([]) == 0
  {
  }

  // ----- whole runs -----

  datatype Event =
    | Store(digest: string, engine: Engine, payload: Bytes, now: int)
    | Lookup(digest: string, engine: Engine, now: int)
    | Evict(target: nat)
    | Purge
    | Corrupt(index: nat, frame: Frame)

  /** Some store of the run sealed this frame. */
  predicate WasSealed(events: seq<Event>, frame: Frame) {
    exists e <- events :: e.Store? && SealArtifact(e.digest, e.engine, e.payload) == Some(frame)
  }

  /** One event, after `past`. Whoever else writes to the table can put into a
      row any blob, but as sealed frames only those the host made. */
  ghost predicate Next(past: seq<Event>, rows: seq<Row>, e: Event, next: seq<Row>) {
    match e
    case Store(d, engine, payload, now) => next == Stored(rows, d, engine, payload, now)
    case Lookup(d, engine, now) => next == Looked(rows, d, engine, now).0
    case Evict(target) => exists victims :: IsEviction(rows, next, victims, target)
    case Purge => next == []
    case Corrupt(i, frame) =>
      i < |rows| && (frame.Sealed? ==> WasSealed(past, frame)) && next == rows[i := rows[i].(frame := frame)]
  }

  /** `states[i]` is the table after the first `i` events, from an empty one. */
  ghost predicate IsRun(events: seq<Event>, states: seq<seq<Row>>) {
    && |states| == |events| + 1 && states[0] == []
    && forall i :: 0 <= i < |events| ==> Next(events[..i], states[i], events[i], states[i + 1])
  }

  /** What was last stored under this key, if anything storable was. */
  function LastStored(events: seq<Event>, digest: string, engine: Engine): Option<Bytes> {
    if events == [] then None
    else
      var e := events[|events| - 1];
      if e.Store? && e.digest == digest && e.engine == engine && Decode(digest).Some? then Some(e.payload)
      else LastStored(events[..|events| - 1], digest, engine)
  }

  predicate Fresh(past: seq<Event>, r: Row) {
    && Decode(r.digest).Some? && LastStored(past, r.digest, r.engine).Some?
    && r.frame == Sealed(Decode(r.digest).value, r.engine, LastStored(past, r.digest, r.engine).value)
  }

  predicate Unique(rows: seq<Row>) {
    forall i, j :: 0 <= i < j < |rows| ==> !Has(rows[j], rows[i].digest, rows[i].engine)
  }

  lemma {:induction false} WithoutKeeps(rows: seq<Row>, digest: string, engine: Engine)
    ensures forall r <- Without(rows, digest, engine) :: r in rows && !Has(r, digest, engine)
    ensures Unique(rows) ==> Unique(Without(rows, digest, engine))
  {
    if rows != [] {
      WithoutKeeps(rows[1..], digest, engine);
      var rest := Without(rows[1..], digest, engine);
      if Unique(rows) {
        assert Unique(rows[1..]);
        forall j | 0 <= j < |rest|
          ensures !Has(rest[j], rows[0].digest, rows[0].engine)
        {
          assert rest[j] in rows[1..];
        }
      }
    }
  }

  lemma {:induction false} UniqueStored(rows: seq<Row>, digest: string, engine: Engine, payload: Bytes, now: int)
    requires Unique(rows)
    ensures Unique(Stored(rows, digest, engine, payload, now))
  {
    hide Without, Decode;
    WithoutKeeps(rows, digest, engine);
    var left := Without(rows, digest, engine);
    assert forall i :: 0 <= i < |left| ==> left[i] in left;
  }

  lemma {:induction false} FreshLater(past: seq<Event>, e: Event, r: Row)
    requires Fresh(past, r) && !(e.Store? && Has(r, e.digest, e.engine))
    ensures Fresh(past + [e], r)
  {
    assert (past + [e])[..|past|] == past;
  }

  lemma {:induction false} FreshStep(past: seq<Event>, rows: seq<Row>, e: Event, next: seq<Row>)
    requires Next(past, rows, e, next) && !e.Corrupt?
    requires forall r <- rows :: Fresh(past, r)
    ensures forall r <- next :: Fresh(past + [e], r)
  {
    hide Fresh, Without, IsEviction, Decode;
    forall r | r in next
      ensures Fresh(past + [e], r)
    {
      match e
      case Store(d, engine, payload, now) =>
        WithoutKeeps(rows, d, engine);
        if r in rows && (SealArtifact(d, engine, payload).None? || !Has(r, d, engine)) {
          if SealArtifact(d, engine, payload).None? && Has(r, d, engine) {
            Undecodable(past, r);
          } else {
            FreshLater(past, e, r);
          }
        } else {
          StoredIsFresh(past, e);
        }
      case Lookup(d, engine, now) =>
        var i := Find(rows, d, engine);
        if r in rows {
          FreshLater(past, e, r);
        } else {
          FreshLater(past, e, rows[i]);
          TouchedIsFresh(past + [e], rows[i], now);
        }
      case Evict(target) =>
        EvictedFrom(rows, next, target, r);
        FreshLater(past, e, r);
      case Purge =>
    }
  }

  lemma {:induction false} Undecodable(past: seq<Event>, r: Row)
    requires Fresh(past, r)
    ensures Decode(r.digest).Some?
  {
  }

  lemma {:induction false} StoredIsFresh(past: seq<Event>, e: Event)
    requires e.Store? && SealArtifact(e.digest, e.engine, e.payload).Some?
    ensures Fresh(past + [e], Row(e.digest, e.engine, SealArtifact(e.digest, e.engine, e.payload).value, e.now))
  {
    hide Decode;
    assert (past + [e])[|past|] == e;
  }

  lemma {:induction false} TouchedIsFresh(past: seq<Event>, r: Row, now: int)
    requires Fresh(past, r)
    ensures Fresh(past, r.(lastUsed := now))
  {
  }

  lemma {:induction false} EvictedFrom(rows: seq<Row>, next: seq<Row>, target: nat, r: Row)
    requires Next([], rows, Evict(target), next) && r in next
    ensures r in rows
  {
    hide Total, Before, Length;
    var victims :| IsEviction(rows, next, victims, target);
    assert r in multiset(next);
    assert r in multiset(rows);
  }

  /** As long as nobody else writes to the table, every row holds what was last
      stored under its key, sealed for it. */
  lemma {:induction false} RowsAreFresh(events: seq<Event>, states: seq<seq<Row>>, i: nat)
    requires IsRun(events, states) && i <= |events|
    requires forall e <- events :: !e.Corrupt?
    ensures forall r <- states[i] :: Fresh(events[..i], r)
  {
    hide Fresh, Next;
    if i > 0 {
      RowsAreFresh(events, states, i - 1);
      FreshStep(events[..i - 1], states[i - 1], events[i - 1], states[i]);
      assert events[..i] == events[..i - 1] + [events[i - 1]];
    }
  }

  /** The cache agrees with what it caches: a lookup returns nothing when there
      is no row for the key, and otherwise the bytes last stored under it. */
  lemma {:induction false} LookupReturnsLastStored(
      events: seq<Event>, states: seq<seq<Row>>, digest: string, engine: Engine, now: int)
    requires IsRun(events, states)
    requires forall e <- events :: !e.Corrupt?
    ensures var rows := states[|events|];
            Looked(rows, digest, engine, now).1 ==
            if Find(rows, digest, engine) >= 0 then LastStored(events, digest, engine) else None
    ensures Find(states[|events|], digest, engine) >= 0 ==> LastStored(events, digest, engine).Some?
  {
    hide Next, Decode, LastStored;
    RowsAreFresh(events, states, |events|);
    assert events[..|events|] == events;
    var rows := states[|events|];
    var i := Find(rows, digest, engine);
    if i >= 0 {
      assert Fresh(events, rows[i]);
    }
  }

  lemma {:induction false} FindIff(rows: seq<Row>, digest: string, engine: Engine)
    ensures Find(rows, digest, engine) >= 0 <==> exists r <- rows :: Has(r, digest, engine)
  {
    if rows != [] {
      FindIff(rows[1..], digest, engine);
      assert rows == [rows[0]] + rows[1..];
    }
  }

  lemma {:induction false} WithoutOthers(rows: seq<Row>, digest: string, engine: Engine, r: Row)
    requires r in rows && !Has(r, digest, engine)
    ensures r in Without(rows, digest, engine)
  {
    if rows[0] != r {
      WithoutOthers(rows[1..], digest, engine, r);
    }
  }

  /** Only eviction and purging lose a key. */
  lemma {:induction false} KeyStays(past: seq<Event>, rows: seq<Row>, e: Event, next: seq<Row>, r: Row)
    returns (r': Row)
    requires Next(past, rows, e, next) && !e.Evict? && !e.Purge? && r in rows
    ensures r' in next && Has(r', r.digest, r.engine)
  {
    hide Decode, Without, WasSealed, IsEviction;
    if !e.Store? {
      var i :| 0 <= i < |rows| && rows[i] == r;
      r' := next[i];
    } else if SealArtifact(e.digest, e.engine, e.payload).None? {
      r' := r;
    } else if Has(r, e.digest, e.engine) {
      r' := next[|next| - 1];
    } else {
      r' := r;
      WithoutOthers(rows, e.digest, e.engine, r);
    }
  }

  /** What is stored stays until eviction or purging: after a store of the key
      that could be sealed, with neither since, there is a row for it. */
  lemma {:induction false} StoredIsFound(
      events: seq<Event>, states: seq<seq<Row>>, i: nat, n: nat, digest: string, engine: Engine)
    requires IsRun(events, states) && i < n <= |events|
    requires events[i].Store? && events[i].digest == digest && events[i].engine == engine && Decode(digest).Some?
    requires forall j :: i < j < n ==> !events[j].Evict? && !events[j].Purge?
    ensures Find(states[n], digest, engine) >= 0
    decreases n
  {
    hide Decode, Without, Find;
    FindIff(states[n], digest, engine);
    assert Next(events[..n - 1], states[n - 1], events[n - 1], states[n]);
    if n == i + 1 {
      assert states[n][|states[n]| - 1] in states[n];
    } else {
      hide Next;
      StoredIsFound(events, states, i, n - 1, digest, engine);
      FindIff(states[n - 1], digest, engine);
      var r :| r in states[n - 1] && Has(r, digest, engine);
      var r' := KeyStays(events[..n - 1], states[n - 1], events[n - 1], states[n], r);
    }
  }

  /** Whatever else is written to the table, bytes that a lookup returns were
      stored before, for the same digest and engine. */
  lemma {:induction false} LookupIsAuthentic(
      events: seq<Event>, states: seq<seq<Row>>, digest: string, engine: Engine, now: int)
    requires IsRun(events, states)
    requires Looked(states[|events|], digest, engine, now).1.Some?
    ensures exists e <- events ::
              && e.Store? && e.engine == engine && Decode(e.digest) == Decode(digest)
              && e.payload == Looked(states[|events|], digest, engine, now).1.value
  {
    hide Next, Decode;
    RowsAreGenuine(events, states, |events|);
    assert events[..|events|] == events;
    var r := states[|events|][Find(states[|events|], digest, engine)];
    assert WasSealed(events, r.frame);
  }

  lemma {:induction false} RowsAreGenuine(events: seq<Event>, states: seq<seq<Row>>, i: nat)
    requires IsRun(events, states) && i <= |events|
    ensures forall r <- states[i] :: r.frame.Sealed? ==> WasSealed(events[..i], r.frame)
  {
    hide WasSealed, Next;
    if i > 0 {
      RowsAreGenuine(events, states, i - 1);
      GenuineStep(events[..i - 1], states[i - 1], events[i - 1], states[i]);
      assert events[..i] == events[..i - 1] + [events[i - 1]];
    }
  }

  lemma {:induction false} GenuineStep(past: seq<Event>, rows: seq<Row>, e: Event, next: seq<Row>)
    requires Next(past, rows, e, next)
    requires forall r <- rows :: r.frame.Sealed? ==> WasSealed(past, r.frame)
    ensures forall r <- next :: r.frame.Sealed? ==> WasSealed(past + [e], r.frame)
  {
    hide Decode, IsEviction, Without;
    forall r | r in next && r.frame.Sealed?
      ensures WasSealed(past + [e], r.frame)
    {
      match e
      case Store(d, engine, payload, _) =>
        WithoutKeeps(rows, d, engine);
        if r !in rows {
          assert e in past + [e];
        }
      case Evict(target) => EvictedFrom(rows, next, target, r);
      case _ =>
    }
  }

  /** An event that uses the key: a store that could be sealed, or a lookup that
      returns bytes. */
  predicate Uses(rows: seq<Row>, e: Event, digest: string, engine: Engine) {
    match e
    case Store(d, en, _, _) => d == digest && en == engine && Decode(digest).Some?
    case Lookup(d, en, now) => d == digest && en == engine && Looked(rows, d, en, now).1.Some?
    case _ => false
  }

  /** In every run the time of a row is that of the last event that used its
      key, so eviction takes the key used least recently. */
  lemma {:induction false} TimeIsOfLastUse(events: seq<Event>, states: seq<seq<Row>>, n: nat, r: Row) returns (i: nat)
    requires IsRun(events, states) && n <= |events| && r in states[n]
    ensures i < n && Uses(states[i], events[i], r.digest, r.engine) && r.lastUsed == events[i].now
    ensures forall j :: i < j < n ==> !Uses(states[j], events[j], r.digest, r.engine)
    decreases n
  {
    hide Decode, Looked, Uses, Next;
    KeysAreUnique(events, states, n - 1);
    assert Next(events[..n - 1], states[n - 1], events[n - 1], states[n]);
    if Uses(states[n - 1], events[n - 1], r.digest, r.engine) {
      i := n - 1;
      UsedNow(events[..n - 1], states[n - 1], events[n - 1], states[n], r);
    } else {
      var before := NotUsedNow(events[..n - 1], states[n - 1], events[n - 1], states[n], r);
      i := TimeIsOfLastUse(events, states, n - 1, before);
    }
  }

  lemma {:induction false} UsedNow(past: seq<Event>, rows: seq<Row>, e: Event, next: seq<Row>, r: Row)
    requires Next(past, rows, e, next) && Unique(rows) && r in next && Uses(rows, e, r.digest, r.engine)
    ensures r.lastUsed == e.now
  {
    hide Decode, Without, OpenArtifact;
    if e.Store? {
      WithoutKeeps(rows, e.digest, e.engine);
    } else {
      var i := Find(rows, e.digest, e.engine);
      var j :| 0 <= j < |next| && next[j] == r;
      assert Has(rows[j], rows[i].digest, rows[i].engine) && Has(rows[i], rows[j].digest, rows[j].engine);
    }
  }

  lemma {:induction false} NotUsedNow(past: seq<Event>, rows: seq<Row>, e: Event, next: seq<Row>, r: Row)
    returns (before: Row)
    requires Next(past, rows, e, next) && r in next && !Uses(rows, e, r.digest, r.engine)
    ensures before in rows
    ensures before.digest == r.digest && before.engine == r.engine && before.lastUsed == r.lastUsed
  {
    hide Decode, Without, OpenArtifact, WasSealed, IsEviction;
    if e.Evict? {
      EvictedFrom(rows, next, e.target, r);
      before := r;
    } else if e.Store? {
      WithoutKeeps(rows, e.digest, e.engine);
      before := r;
    } else {
      var j :| 0 <= j < |next| && next[j] == r;
      before := rows[j];
    }
  }

  /** No key ever has two rows. */
  lemma {:induction false} KeysAreUnique(events: seq<Event>, states: seq<seq<Row>>, i: nat)
    requires IsRun(events, states) && i <= |events|
    ensures Unique(states[i])
  {
    hide Next;
    if i > 0 {
      KeysAreUnique(events, states, i - 1);
      UniqueStep(events[..i - 1], states[i - 1], events[i - 1], states[i]);
    }
  }

  lemma {:induction false} UniqueStep(past: seq<Event>, rows: seq<Row>, e: Event, next: seq<Row>)
    requires Next(past, rows, e, next) && Unique(rows)
    ensures Unique(next)
  {
    hide Decode, IsEviction, Stored, WasSealed;
    match e
    case Store(d, engine, payload, now) => UniqueStored(rows, d, engine, payload, now);
    case Evict(target) => UniqueEvicted(rows, next, target);
    case _ =>
  }

  lemma {:induction false} UniqueEvicted(rows: seq<Row>, next: seq<Row>, target: nat)
    requires Unique(rows) && Next([], rows, Evict(target), next)
    ensures Unique(next)
  {
    hide Total, Before, Length;
    var victims :| IsEviction(rows, next, victims, target);
    forall i, j | 0 <= i < j < |next|
      ensures !Has(next[j], next[i].digest, next[i].engine)
    {
      TwoOf(rows, next, victims, i, j);
    }
  }

  /** Two kept rows were two rows of the table before. */
  lemma {:induction false} TwoOf(rows: seq<Row>, next: seq<Row>, victims: seq<Row>, i: nat, j: nat)
    requires Unique(rows) && multiset(rows) == multiset(next) + multiset(victims) && i < j < |next|
    ensures !Has(next[j], next[i].digest, next[i].engine)
  {
    hide Has;
    var a, b := next[i], next[j];
    assert a in multiset(rows) && b in multiset(rows);
    var p :| 0 <= p < |rows| && rows[p] == a;
    var q :| 0 <= q < |rows| && rows[q] == b;
    if a == b {
      CountsTwice(next, i, j);
      q := SecondPlace(rows, p);
    }
    assert Unique(rows);
    SameKey(rows[p], rows[q]);
  }

  lemma {:induction false} SameKey(a: Row, b: Row)
    ensures Has(a, b.digest, b.engine) <==> Has(b, a.digest, a.engine)
  {
  }

  lemma {:induction false} CountsTwice(rows: seq<Row>, i: nat, j: nat)
    requires i < j < |rows| && rows[i] == rows[j]
    ensures multiset(rows)[rows[i]] >= 2
  {
    var a := rows[i];
    assert rows == rows[..j] + rows[j..];
    assert a in rows[..j] && a in rows[j..];
  }

  lemma {:induction false} SecondPlace(rows: seq<Row>, p: nat) returns (q: nat)
    requires p < |rows| && multiset(rows)[rows[p]] >= 2
    ensures q < |rows| && q != p && rows[q] == rows[p]
  {
    var a := rows[p];
    assert rows == rows[..p] + [a] + rows[p + 1..];
    assert a in rows[..p] + rows[p + 1..];
    q :| 0 <= q < |rows| && q != p && rows[q] == a;
  }
}
