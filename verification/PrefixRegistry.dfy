/** The prefix registry (host/src/prefix_registry.rs:41-67, 116-315, 446-509):
    three tables, of which each SQL statement is modelled by its effect. */
module PrefixRegistry {
  import opened Text

  /** Short prefix to expansion. */
  type Prefixes = map<string, string>

  datatype FunctionKey = FunctionKey(expansion: string, name: string, nargs: int)

  datatype FunctionRow = FunctionRow(extension: string, registeredAt: int)

  type Functions = map<FunctionKey, FunctionRow>

  datatype Arity = Arity(name: string, nargs: int)

  type Pins = map<Arity, string>

  // ----- prefixes -----

  const COLLISION_FALLBACK_LIMIT := 999

  /** The names tried for a requested prefix: itself, then numbered from 2. */
  function Slot(requested: string, n: nat): string {
    if n <= 1 then requested else requested + Decimal(n)
  }

  /** The first slot from the `n`th on that is unbound or already bound so. */
  function FirstSlot(t: Prefixes, requested: string, expansion: string, n: nat): (r: int)
    ensures r == -1 || n <= r <= COLLISION_FALLBACK_LIMIT
    decreases COLLISION_FALLBACK_LIMIT + 1 - n
  {
    if n > COLLISION_FALLBACK_LIMIT then -1
    else if Slot(requested, n) !in t || t[Slot(requested, n)] == expansion then n
    else FirstSlot(t, requested, expansion, n + 1)
  }

  /** The table and the alias answered, none when every slot is taken. */
  function Recorded(t: Prefixes, requested: string, expansion: string): (Prefixes, Option<string>) {
    var n := FirstSlot(t, requested, expansion, 1);
    if n < 0 then (t, None) else (t[Slot(requested, n) := expansion], Some(Slot(requested, n)))
  }

  /** The slot holds some other expansion. */
  predicate TakenByOther(t: Prefixes, slot: string, expansion: string) {
    slot in t && t[slot] != expansion
  }

  lemma {:induction false} FirstSlotIs(t: Prefixes, requested: string, expansion: string, n: nat, m: nat)
    requires n <= m <= COLLISION_FALLBACK_LIMIT + 1
    requires forall k: nat :: n <= k < m ==> TakenByOther(t, Slot(requested, k), expansion)
    requires m <= COLLISION_FALLBACK_LIMIT ==> !TakenByOther(t, Slot(requested, m), expansion)
    ensures FirstSlot(t, requested, expansion, n) == if m <= COLLISION_FALLBACK_LIMIT then m else -1
    decreases m - n
  {
    hide Slot;
    if n < m {
      assert TakenByOther(t, Slot(requested, n), expansion);
      FirstSlotIs(t, requested, expansion, n + 1, m);
    }
  }

  lemma {:induction false} SlotsBefore(t: Prefixes, requested: string, expansion: string, n: nat)
    ensures var r := FirstSlot(t, requested, expansion, n);
            && (forall k: nat :: n <= k && (if r < 0 then k <= COLLISION_FALLBACK_LIMIT else k < r) ==>
                  TakenByOther(t, Slot(requested, k), expansion))
            && (r >= 0 ==> !TakenByOther(t, Slot(requested, r), expansion))
    decreases COLLISION_FALLBACK_LIMIT + 1 - n
  {
    hide Slot;
    if n <= COLLISION_FALLBACK_LIMIT && TakenByOther(t, Slot(requested, n), expansion) {
      SlotsBefore(t, requested, expansion, n + 1);
    }
  }

  /** No bound prefix ever changes its expansion. */
  predicate Keeps(t: Prefixes, u: Prefixes) {
    forall p <- t :: p in u && u[p] == t[p]
  }

  datatype Request = Request(prefix: string, expansion: string)

  function RecordAll(t: Prefixes, calls: seq<Request>): Prefixes {
    if calls == [] then t
    else
      var c := calls[|calls| - 1];
      Recorded(RecordAll(t, calls[..|calls| - 1]), c.prefix, c.expansion).0
  }

  /** Requests are recorded one after the other. */
  lemma {:induction false} RecordAllIs(t: Prefixes, calls: seq<Request>, c: Request)
    ensures RecordAll(t, []) == t
    ensures RecordAll(t, calls + [c]) == Recorded(RecordAll(t, calls), c.prefix, c.expansion).0
  {
    hide Recorded;
    assert (calls + [c])[..|calls + [c]| - 1] == calls;
  }

  lemma {:induction false} RecordKeeps(t: Prefixes, requested: string, expansion: string)
    ensures Keeps(t, Recorded(t, requested, expansion).0)
  {
    hide Slot, FirstSlot;
    SlotsBefore(t, requested, expansion, 1);
  }

  lemma {:induction false} RunKeeps(t: Prefixes, calls: seq<Request>)
    ensures Keeps(t, RecordAll(t, calls))
  {
    hide Recorded;
    if calls != [] {
      var front, c := calls[..|calls| - 1], calls[|calls| - 1];
      RunKeeps(t, front);
      RecordKeeps(RecordAll(t, front), c.prefix, c.expansion);
    }
  }

  /** Once a request has been answered with an alias, the same request gets
      the same alias after any other requests, and then changes nothing. */
  lemma {:induction false} AnswerIsStable(t: Prefixes, requested: string, expansion: string, calls: seq<Request>)
    requires Recorded(t, requested, expansion).1.Some?
    ensures var alias := Recorded(t, requested, expansion).1.value;
            var later := RecordAll(Recorded(t, requested, expansion).0, calls);
            && alias in later && later[alias] == expansion
            && Recorded(later, requested, expansion) == (later, Some(alias))
  {
    hide Slot, FirstSlot, RecordAll;
    var n := FirstSlot(t, requested, expansion, 1);
    var after := Recorded(t, requested, expansion).0;
    var later := RecordAll(after, calls);
    SlotsBefore(t, requested, expansion, 1);
    RunKeeps(after, calls);
    forall k: nat | 1 <= k < n
      ensures TakenByOther(later, Slot(requested, k), expansion)
    {
      assert TakenByOther(t, Slot(requested, k), expansion);
      assert Slot(requested, k) in after;
    }
    FirstSlotIs(later, requested, expansion, 1, n);
    assert later == later[Slot(requested, n) := expansion];
  }

  /** A request fails exactly when all the slots hold other expansions, and
      then the table stays as it is. */
  lemma {:induction false} FailsWhenFull(t: Prefixes, requested: string, expansion: string)
    ensures Recorded(t, requested, expansion).1.None? <==>
            && requested in t && t[requested] != expansion
            && forall k: nat :: 2 <= k <= 999 ==>
                 requested + Decimal(k) in t && t[requested + Decimal(k)] != expansion
    ensures Recorded(t, requested, expansion).1.None? ==> Recorded(t, requested, expansion).0 == t
  {
    hide Decimal, FirstSlot, Slot;
    SlotsBefore(t, requested, expansion, 1);
    SlotText(t, requested, expansion, 1);
    if Recorded(t, requested, expansion).1.None? {
      forall k: nat | 2 <= k <= 999
        ensures requested + Decimal(k) in t && t[requested + Decimal(k)] != expansion
      {
        SlotText(t, requested, expansion, k);
      }
    } else {
      var k: nat := FirstSlot(t, requested, expansion, 1);
      SlotText(t, requested, expansion, k);
      assert k == 1 || !(requested + Decimal(k) in t && t[requested + Decimal(k)] != expansion);
    }
  }

  lemma {:induction false} SlotText(t: Prefixes, requested: string, expansion: string, k: nat)
    requires k >= 1
    ensures TakenByOther(t, Slot(requested, k), expansion) <==>
            if k == 1 then requested in t && t[requested] != expansion
            else requested + Decimal(k) in t && t[requested + Decimal(k)] != expansion
  {
    hide Decimal;
  }

  /** A prefix that is unbound, or bound to the expansion already, is answered
      itself. */
  lemma {:induction false} OwnPrefixIsAnswered(t: Prefixes, requested: string, expansion: string)
    requires requested !in t || t[requested] == expansion
    ensures Recorded(t, requested, expansion) == (t[requested := expansion], Some(requested))
  {
    FirstSlotIs(t, requested, expansion, 1, 1);
  }

  /** Otherwise the alias is the prefix with the first number from 2 to 999
      behind it that makes a name unbound or bound to the expansion already. */
  lemma {:induction false} AliasIs(t: Prefixes, requested: string, expansion: string, n: nat)
    requires 2 <= n <= 999 && requested in t && t[requested] != expansion
    requires forall k: nat :: 2 <= k < n ==>
               requested + Decimal(k) in t && t[requested + Decimal(k)] != expansion
    requires requested + Decimal(n) !in t || t[requested + Decimal(n)] == expansion
    ensures Recorded(t, requested, expansion) ==
            (t[requested + Decimal(n) := expansion], Some(requested + Decimal(n)))
  {
    hide Decimal, FirstSlot;
    forall k: nat | 1 <= k < n
      ensures TakenByOther(t, Slot(requested, k), expansion)
    {
      assert k >= 2 ==> requested + Decimal(k) in t;
    }
    FirstSlotIs(t, requested, expansion, 1, n);
  }

  /** In particular a second expansion for a bound prefix `p` gets `p2`. */
  lemma {:induction false} SecondGetsTwo(t: Prefixes, prefix: string, expansion: string)
    requires prefix in t && t[prefix] != expansion && prefix + "2" !in t
    ensures Recorded(t, prefix, expansion) == (t[prefix + "2" := expansion], Some(prefix + "2"))
  {
    assert Decimal(2) == "2";
    hide Decimal, Recorded;
    AliasIs(t, prefix, expansion, 2);
  }

  // ----- functions -----

  /** The expansions other than `mine` that have this function. */
  function Others(t: Functions, mine: string, f: Arity): set<string> {
    set k | k in t && k.name == f.name && k.nargs == f.nargs && k.expansion != mine :: k.expansion
  }

  function ExpansionsOf(t: Functions, f: Arity): set<string> {
    set k | k in t && k.name == f.name && k.nargs == f.nargs :: k.expansion
  }

  datatype Registration = Registration(expansion: string, function_: Arity, extension: string, now: int)

  function Upserted(t: Functions, r: Registration): Functions {
    t[FunctionKey(r.expansion, r.function_.name, r.function_.nargs) := FunctionRow(r.extension, r.now)]
  }

  function RegisterAll(t: Functions, calls: seq<Registration>): Functions {
    if calls == [] then t else Upserted(RegisterAll(t, calls[..|calls| - 1]), calls[|calls| - 1])
  }

  /** Functions are registered one after the other. */
  lemma {:induction false} RegisterAllIs(t: Functions, calls: seq<Registration>, c: Registration)
    ensures RegisterAll(t, []) == t && RegisterAll(t, calls + [c]) == Upserted(RegisterAll(t, calls), c)
  {
    hide Upserted;
    assert (calls + [c])[..|calls + [c]| - 1] == calls;
  }

  /** Some call of the run for `f` was told of other expansions. */
  predicate Warned(t: Functions, calls: seq<Registration>, f: Arity) {
    calls != [] &&
    (var front, c := calls[..|calls| - 1], calls[|calls| - 1];
     Warned(t, front, f) || (c.function_ == f && Others(RegisterAll(t, front), c.expansion, f) != {}))
  }

  predicate Collides(t: Functions, f: Arity) {
    |ExpansionsOf(t, f)| > 1
  }

  /** A function collides exactly when two expansions have it. */
  lemma {:induction false} CollidesIs(t: Functions, f: Arity)
    ensures Collides(t, f) <==>
            exists d: string, e: string ::
              d != e && FunctionKey(d, f.name, f.nargs) in t && FunctionKey(e, f.name, f.nargs) in t
    ensures forall e: string :: e in ExpansionsOf(t, f) <==> FunctionKey(e, f.name, f.nargs) in t
  {
    hide Collides;
    forall e: string
      ensures e in ExpansionsOf(t, f) <==> FunctionKey(e, f.name, f.nargs) in t
    {
      var k := FunctionKey(e, f.name, f.nargs);
      assert k in t ==> k.expansion in ExpansionsOf(t, f);
    }
    TwoElements(ExpansionsOf(t, f));
    hide ExpansionsOf;
    CollidesMeans(t, f);
    if d, e: string :| d in ExpansionsOf(t, f) && e in ExpansionsOf(t, f) && d != e {
      assert FunctionKey(d, f.name, f.nargs) in t && FunctionKey(e, f.name, f.nargs) in t;
    }
  }

  lemma {:induction false} CollidesMeans(t: Functions, f: Arity)
    ensures Collides(t, f) <==> |ExpansionsOf(t, f)| > 1
  {
  }

  lemma {:induction false} TwoElements(s: set<string>)
    ensures |s| > 1 <==> exists d, e :: d in s && e in s && d != e
  {
    if |s| > 1 {
      var d :| d in s;
      assert |s - {d}| >= 1;
      var e :| e in s - {d};
      assert d != e && e in s;
    }
    if d, e :| d in s && e in s && d != e {
      assert {d, e} <= s;
      assert |s| == |{d, e}| + |s - {d, e}|;
    }
  }

  lemma {:induction false} ExpansionsAfter(t: Functions, r: Registration, f: Arity)
    ensures ExpansionsOf(Upserted(t, r), f) == ExpansionsOf(t, f) + if r.function_ == f then {r.expansion} else {}
  {
    var k := FunctionKey(r.expansion, r.function_.name, r.function_.nargs);
    forall e | e in ExpansionsOf(t, f) + if r.function_ == f then {r.expansion} else {}
      ensures e in ExpansionsOf(Upserted(t, r), f)
    {
      assert FunctionKey(e, f.name, f.nargs) in Upserted(t, r);
    }
  }

  lemma {:induction false} OthersAre(t: Functions, mine: string, f: Arity)
    ensures Others(t, mine, f) == ExpansionsOf(t, f) - {mine}
  {
    forall e | e in ExpansionsOf(t, f) - {mine}
      ensures e in Others(t, mine, f)
    {
      assert FunctionKey(e, f.name, f.nargs) in t;
    }
  }

  /** Adding `e` makes a second element exactly when some other is there. */
  lemma {:induction false} SecondElement(s: set<string>, e: string)
    ensures |s + {e}| > 1 <==> s - {e} != {}
  {
    assert |s + {e}| == |(s - {e}) + {e}| == |s - {e}| + 1 by { assert s + {e} == (s - {e}) + {e}; }
  }

  lemma {:induction false} MoreElements(s: set<string>, e: string)
    requires |s| > 1
    ensures |s + {e}| > 1
  {
    assert s + {e} == s + ({e} - s);
  }

  /** Over any run from empty tables a function collides exactly when some
      registration of it was told of another expansion. */
  lemma {:induction false} CollidesIffWarned(calls: seq<Registration>, f: Arity)
    ensures Collides(RegisterAll(map[], calls), f) <==> Warned(map[], calls, f)
  {
    hide Upserted, ExpansionsOf, Others;
    if calls == [] {
      assert ExpansionsOf(map[], f) == {} by { NoExpansions(f); }
    } else {
      var front, c := calls[..|calls| - 1], calls[|calls| - 1];
      var t := RegisterAll(map[], front);
      CollidesIffWarned(front, f);
      ExpansionsAfter(t, c, f);
      OthersAre(t, c.expansion, f);
      SecondElement(ExpansionsOf(t, f), c.expansion);
      if Collides(t, f) {
        MoreElements(ExpansionsOf(t, f), c.expansion);
      }
    }
  }

  lemma {:induction false} NoExpansions(f: Arity)
    ensures ExpansionsOf(map[], f) == {}
  {
  }

  // ----- listing collisions -----

  datatype Row = Row(function_: Arity, expansion: string, registeredAt: int)

  predicate ArityLeq(a: Arity, b: Arity) {
    if a.name == b.name then a.nargs <= b.nargs else Leq(a.name, b.name)
  }

  predicate RowLeq(a: Row, b: Row) {
    ArityLeq(a.function_, b.function_) && (a.function_ == b.function_ ==> a.registeredAt <= b.registeredAt)
  }

  function KeyOf(r: Row): FunctionKey {
    FunctionKey(r.expansion, r.function_.name, r.function_.nargs)
  }

  /** What the query may return: the rows of the colliding functions, each
      once, ordered by name, arity and registration time, ties in any order. */
  ghost predicate IsQueryResult(t: Functions, rows: seq<Row>) {
    && (forall r <- rows :: KeyOf(r) in t && t[KeyOf(r)].registeredAt == r.registeredAt && Collides(t, r.function_))
    && (forall k <- t :: Collides(t, Arity(k.name, k.nargs)) ==>
          Row(Arity(k.name, k.nargs), k.expansion, t[k].registeredAt) in rows)
    && (forall i, j :: 0 <= i < j < |rows| ==> rows[i] != rows[j] && RowLeq(rows[i], rows[j]))
  }

  datatype Collision = Collision(function_: Arity, expansions: seq<string>)

  function ExpansionSeq(rows: seq<Row>, f: Arity): seq<string> {
    if rows == [] then []
    else
      var last := rows[|rows| - 1];
      ExpansionSeq(rows[..|rows| - 1], f) + if last.function_ == f then [last.expansion] else []
  }

  /** A list taken apart again: one function and expansion after the other. */
  function Ungrouped(out: seq<Collision>): seq<(Arity, string)> {
    if out == [] then []
    else
      Ungrouped(out[..|out| - 1]) + PairsOf(out[|out| - 1].function_, out[|out| - 1].expansions)
  }

  function PairsOf(f: Arity, expansions: seq<string>): (r: seq<(Arity, string)>)
    ensures |r| == |expansions| && forall i :: 0 <= i < |r| ==> r[i] == (f, expansions[i])
  {
    seq(|expansions|, i requires 0 <= i < |expansions| => (f, expansions[i]))
  }

  function Pairs(rows: seq<Row>): (r: seq<(Arity, string)>)
    ensures |r| == |rows| && forall i :: 0 <= i < |r| ==> r[i] == (rows[i].function_, rows[i].expansion)
  {
    seq(|rows|, i requires 0 <= i < |rows| => (rows[i].function_, rows[i].expansion))
  }

  /** The grouping of consecutive rows: each function of the rows once, with
      its expansions in row order; taken apart, it is the rows. */
  ghost predicate IsGrouping(rows: seq<Row>, out: seq<Collision>) {
    && (forall i, j :: 0 <= i < j < |out| ==> out[i].function_ != out[j].function_)
    && (forall c <- out :: c.expansions != [] && c.expansions == ExpansionSeq(rows, c.function_))
    && (forall r <- rows :: exists c <- out :: c.function_ == r.function_)
    && (rows == [] <==> out == [])
    && (rows != [] ==> out[|out| - 1].function_ == rows[|rows| - 1].function_)
    && Ungrouped(out) == Pairs(rows)
    && (forall i, j :: 0 <= i < j < |out| ==> ArityLeq(out[i].function_, out[j].function_))
  }

  lemma {:induction false} UngroupedLast(out: seq<Collision>, c: Collision)
    ensures Ungrouped(out + [c]) == Ungrouped(out) + PairsOf(c.function_, c.expansions)
  {
    hide PairsOf;
    var all := out + [c];
    assert all[..|all| - 1] == out && all[|all| - 1] == c;
  }

  lemma {:induction false} PairsNext(rows: seq<Row>, r: Row)
    ensures Pairs(rows + [r]) == Pairs(rows) + [(r.function_, r.expansion)]
  {
  }

  lemma {:induction false} UngroupedNew(rows: seq<Row>, r: Row, out: seq<Collision>)
    requires Ungrouped(out) == Pairs(rows)
    ensures Ungrouped(out + [Collision(r.function_, [r.expansion])]) == Pairs(rows + [r])
  {
    hide Ungrouped, Pairs;
    UngroupedLast(out, Collision(r.function_, [r.expansion]));
    PairsNext(rows, r);
    assert PairsOf(r.function_, [r.expansion]) == [(r.function_, r.expansion)];
  }

  lemma {:induction false} PairsOfMore(f: Arity, expansions: seq<string>, e: string)
    ensures PairsOf(f, expansions + [e]) == PairsOf(f, expansions) + [(f, e)]
  {
  }

  lemma {:induction false} UngroupedMore(rows: seq<Row>, r: Row, out: seq<Collision>)
    requires Ungrouped(out) == Pairs(rows) && out != [] && out[|out| - 1].function_ == r.function_
    ensures var last := out[|out| - 1];
            Ungrouped(out[..|out| - 1] + [Collision(last.function_, last.expansions + [r.expansion])]) ==
            Pairs(rows + [r])
  {
    hide Ungrouped, Pairs, PairsOf;
    var front, last := out[..|out| - 1], out[|out| - 1];
    assert out == front + [last];
    UngroupedLast(front, last);
    UngroupedLast(front, Collision(last.function_, last.expansions + [r.expansion]));
    PairsOfMore(last.function_, last.expansions, r.expansion);
    PairsNext(rows, r);
  }

  lemma {:induction false} SameFunctionsAdjoin(rows: seq<Row>, i: nat, j: nat, k: nat)
    requires i <= j <= k < |rows| && rows[i].function_ == rows[k].function_
    requires forall a, b :: 0 <= a < b < |rows| ==> RowLeq(rows[a], rows[b])
    ensures rows[j].function_ == rows[k].function_
  {
    if i < j < k {
      var f, g := rows[i].function_, rows[j].function_;
      assert RowLeq(rows[i], rows[j]) && RowLeq(rows[j], rows[k]);
      if f.name != g.name {
        LeqAntisymmetric(f.name, g.name);
      }
    }
  }

  lemma {:induction false} NotSeenYet(rows: seq<Row>, f: Arity)
    requires forall r <- rows :: r.function_ != f
    ensures ExpansionSeq(rows, f) == []
  {
    if rows != [] {
      assert rows[|rows| - 1] in rows;
      NotSeenYet(rows[..|rows| - 1], f);
    }
  }

  lemma {:induction false} SeenIsListed(rows: seq<Row>, f: Arity)
    requires ExpansionSeq(rows, f) != []
    ensures exists r <- rows :: r.function_ == f
  {
    if rows[|rows| - 1].function_ != f {
      SeenIsListed(rows[..|rows| - 1], f);
    }
    assert rows[|rows| - 1] in rows;
  }

  /** The row opens a group of its own. */
  lemma {:induction false} NewGroup(rows: seq<Row>, r: Row, out: seq<Collision>)
    requires IsGrouping(rows, out) && forall a, b :: 0 <= a < b <= |rows| ==> RowLeq((rows + [r])[a], (rows + [r])[b])
    requires rows == [] || rows[|rows| - 1].function_ != r.function_
    ensures IsGrouping(rows + [r], out + [Collision(r.function_, [r.expansion])])
  {
    hide RowLeq, ExpansionSeq, Ungrouped, ArityLeq;
    var all, out' := rows + [r], out + [Collision(r.function_, [r.expansion])];
    UngroupedNew(rows, r, out);
    forall i | 0 <= i < |rows|
      ensures rows[i].function_ != r.function_
    {
      if rows[i].function_ == r.function_ {
        assert all[i] == rows[i] && all[|rows|] == r;
        SameFunctionsAdjoin(all, i, |rows| - 1, |rows|);
      }
    }
    NotSeenYet(rows, r.function_);
    forall c | c in out'
      ensures c.expansions != [] && c.expansions == ExpansionSeq(all, c.function_)
    {
      ExpansionsAppend(rows, r, c.function_);
      if c in out {
        SeenIsListed(rows, c.function_);
      }
    }
    forall c | c in out
      ensures c.function_ != r.function_ && ArityLeq(c.function_, r.function_)
    {
      SeenIsListed(rows, c.function_);
      ListedBefore(rows, r, c.function_);
    }
    ListedStays(rows, r, out, out');
  }

  lemma {:induction false} ListedBefore(rows: seq<Row>, r: Row, f: Arity)
    requires exists x <- rows :: x.function_ == f
    requires forall a, b :: 0 <= a < b <= |rows| ==> RowLeq((rows + [r])[a], (rows + [r])[b])
    ensures ArityLeq(f, r.function_)
  {
    hide ArityLeq;
    var all := rows + [r];
    var i :| 0 <= i < |rows| && rows[i].function_ == f;
    assert RowLeq(all[i], all[|rows|]);
  }

  lemma {:induction false} ListedStays(rows: seq<Row>, r: Row, out: seq<Collision>, out': seq<Collision>)
    requires forall x <- rows :: exists c <- out :: c.function_ == x.function_
    requires |out| <= |out'| && forall i :: 0 <= i < |out| ==> out'[i].function_ == out[i].function_
    requires out' != [] && out'[|out'| - 1].function_ == r.function_
    ensures forall x <- rows + [r] :: exists c <- out' :: c.function_ == x.function_
  {
    forall x | x in rows + [r]
      ensures exists c <- out' :: c.function_ == x.function_
    {
      if x in rows {
        var c :| c in out && c.function_ == x.function_;
        var i :| 0 <= i < |out| && out[i] == c;
        assert out'[i] in out';
      } else {
        assert out'[|out'| - 1] in out';
      }
    }
  }

  lemma {:induction false} ExpansionsAppend(rows: seq<Row>, r: Row, f: Arity)
    ensures ExpansionSeq(rows + [r], f) == ExpansionSeq(rows, f) + if r.function_ == f then [r.expansion] else []
  {
    assert (rows + [r])[..|rows|] == rows;
  }

  /** The row joins the last group. */
  lemma {:induction false} SameGroup(rows: seq<Row>, r: Row, out: seq<Collision>)
    requires IsGrouping(rows, out) && rows != [] && out != []
    requires out[|out| - 1].function_ == r.function_
    ensures var last := out[|out| - 1];
            IsGrouping(rows + [r], out[..|out| - 1] + [Collision(last.function_, last.expansions + [r.expansion])])
  {
    hide ExpansionSeq, Ungrouped, ArityLeq;
    UngroupedMore(rows, r, out);
    var n, last := |out| - 1, out[|out| - 1];
    var out' := out[..n] + [Collision(last.function_, last.expansions + [r.expansion])];
    forall i | 0 <= i < |out'|
      ensures out'[i].expansions != [] && out'[i].expansions == ExpansionSeq(rows + [r], out'[i].function_)
    {
      ExpansionsAppend(rows, r, out'[i].function_);
      assert out[i] in out;
    }
    ListedStays(rows, r, out, out');
  }

  /** The store: the registry's tables on one connection. */
  class SqliteStore {
    var prefixes: Prefixes
    var functions: Functions
    var pins: Pins

    constructor ()
      ensures prefixes == map[] && functions == map[] && pins == map[]
    {
      prefixes, functions, pins := map[], map[], map[];
    }

    method RecordPrefix(requested: string, expansion: string) returns (alias: Option<string>)
      modifies this`prefixes
      ensures (prefixes, alias) == Recorded(old(prefixes), requested, expansion)
    {
      hide Slot;
      assert Slot(requested, 1) == requested by { FirstIsRequested(requested); }
      if requested in prefixes && prefixes[requested] == expansion {
        assert prefixes == prefixes[requested := expansion];
        return Some(requested);
      }
      if requested !in prefixes {
        prefixes := prefixes[requested := expansion];
        return Some(requested);
      }
      for n := 2 to COLLISION_FALLBACK_LIMIT + 1
        invariant prefixes == old(prefixes)
        invariant FirstSlot(prefixes, requested, expansion, n) == FirstSlot(prefixes, requested, expansion, 1)
      {
        var candidate := Slot(requested, n);
        if candidate in prefixes && prefixes[candidate] == expansion {
          assert prefixes == prefixes[candidate := expansion];
          return Some(candidate);
        }
        if candidate !in prefixes {
          prefixes := prefixes[candidate := expansion];
          return Some(candidate);
        }
      }
      alias := None;
    }

    /** The expansions found before the row is written, each once. */
    method RecordFunction(r: Registration) returns (others: seq<string>)
      modifies this`functions
      ensures functions == Upserted(old(functions), r)
      ensures forall i, j :: 0 <= i < j < |others| ==> others[i] != others[j]
      ensures forall e: string :: e in others <==> e in Others(old(functions), r.expansion, r.function_)
      ensures forall e: string ::
                e in others <==>
                e != r.expansion && FunctionKey(e, r.function_.name, r.function_.nargs) in old(functions)
    {
      OthersAre(functions, r.expansion, r.function_);
      CollidesIs(functions, r.function_);
      var rest := Others(functions, r.expansion, r.function_);
      others := [];
      hide Others, Upserted, ExpansionsOf;
      while rest != {}
        invariant forall i, j :: 0 <= i < j < |others| ==> others[i] != others[j]
        invariant forall e <- others :: e !in rest
        invariant forall e: string :: e in others || e in rest <==> e in Others(functions, r.expansion, r.function_)
        decreases |rest|
      {
        var e :| e in rest;
        others := others + [e];
        rest := rest - {e};
      }
      var key := FunctionKey(r.expansion, r.function_.name, r.function_.nargs);
      functions := functions[key := FunctionRow(r.extension, r.now)];
      assert functions == Upserted(old(functions), r) by { UpsertIs(old(functions), r); }
    }

    method LookupPin(f: Arity) returns (expansion: Option<string>)
      ensures expansion == PinnedTo(pins, f)
      ensures match expansion
              case Some(e) => f in pins && pins[f] == e
              case None => f !in pins
    {
      expansion := if f in pins then Some(pins[f]) else None;
    }

    method Pin(f: Arity, expansion: string)
      modifies this`pins
      ensures pins == old(pins)[f := expansion]
    {
      pins := pins[f := expansion];
    }

    /** The grouping loop over the rows the query returned. */
    method ListCollisions(rows: seq<Row>) returns (out: seq<Collision>)
      requires IsQueryResult(functions, rows)
      ensures IsGrouping(rows, out)
    {
      hide RowLeq, ExpansionSeq, Collides, IsGrouping;
      out := [];
      assert IsGrouping(rows[..0], out) by { NoGroups(); }
      for i := 0 to |rows|
        invariant IsGrouping(rows[..i], out)
      {
        var r := rows[i];
        assert rows[..i + 1] == rows[..i] + [r];
        LastOfGrouping(rows[..i], out);
        if out != [] && out[|out| - 1].function_ == r.function_ {
          SameGroup(rows[..i], r, out);
          out := out[|out| - 1 := out[|out| - 1].(expansions := out[|out| - 1].expansions + [r.expansion])];
          assert out == out[..|out| - 1] + [out[|out| - 1]];
        } else {
          NewGroup(rows[..i], r, out);
          out := out + [Collision(r.function_, [r.expansion])];
        }
      }
      assert rows[..|rows|] == rows;
    }
  }

  lemma {:induction false} FirstIsRequested(requested: string)
    ensures Slot(requested, 1) == requested
  {
  }

  lemma {:induction false} UpsertIs(t: Functions, r: Registration)
    ensures Upserted(t, r) ==
            t[FunctionKey(r.expansion, r.function_.name, r.function_.nargs) := FunctionRow(r.extension, r.now)]
  {
  }

  lemma {:induction false} NoGroups()
    ensures IsGrouping([], [])
  {
  }

  lemma {:induction false} LastOfGrouping(rows: seq<Row>, out: seq<Collision>)
    requires IsGrouping(rows, out)
    ensures rows == [] <==> out == []
    ensures rows != [] ==> out[|out| - 1].function_ == rows[|rows| - 1].function_
  {
  }

  /** The list is complete: a function is on it exactly when it collides, once,
      with all of its expansions, each once and in registration order. */
  lemma {:induction false} ListIsComplete(t: Functions, rows: seq<Row>, out: seq<Collision>, f: Arity)
    requires IsQueryResult(t, rows) && IsGrouping(rows, out)
    ensures Collides(t, f) <==> exists c <- out :: c.function_ == f
    ensures forall c <- out :: c.function_ == f ==>
              && (forall e: string :: e in c.expansions <==> FunctionKey(e, f.name, f.nargs) in t)
              && (forall i, j :: 0 <= i < j < |c.expansions| ==>
                    && c.expansions[i] != c.expansions[j]
                    && var k, l := FunctionKey(c.expansions[i], f.name, f.nargs),
                                   FunctionKey(c.expansions[j], f.name, f.nargs);
                       k in t && l in t && t[k].registeredAt <= t[l].registeredAt)
    ensures forall i, j :: 0 <= i < j < |out| ==>
              var a, b := out[i].function_, out[j].function_;
              if a.name == b.name then a.nargs < b.nargs else Leq(a.name, b.name)
  {
    hide RowLeq, ExpansionSeq, Ungrouped, Collides, ExpansionsOf;
    CollidesIs(t, f);
    CollidesMeans(t, f);
    if Collides(t, f) {
      var e :| e in ExpansionsOf(t, f);
      var k := FunctionKey(e, f.name, f.nargs);
      assert k in t && Arity(k.name, k.nargs) == f;
      assert Row(f, e, t[k].registeredAt) in rows;
    }
    forall c | c in out && c.function_ == f
      ensures Collides(t, f)
      ensures forall e: string :: e in c.expansions <==> e in ExpansionsOf(t, f)
      ensures forall i, j :: 0 <= i < j < |c.expansions| ==>
                && c.expansions[i] != c.expansions[j]
                && InTime(t, f, c.expansions[i], c.expansions[j])
    {
      SeenIsListed(rows, f);
      GroupIsComplete(t, rows, f);
    }
  }

  /** The first expansion has the function for at least as long. */
  predicate InTime(t: Functions, f: Arity, d: string, e: string) {
    var k, l := FunctionKey(d, f.name, f.nargs), FunctionKey(e, f.name, f.nargs);
    k in t && l in t && t[k].registeredAt <= t[l].registeredAt
  }

  lemma {:induction false} GroupIsComplete(t: Functions, rows: seq<Row>, f: Arity)
    requires IsQueryResult(t, rows) && Collides(t, f)
    ensures var es := ExpansionSeq(rows, f);
            && (forall e: string :: e in es <==> e in ExpansionsOf(t, f))
            && (forall i, j :: 0 <= i < j < |es| ==> es[i] != es[j] && InTime(t, f, es[i], es[j]))
  {
    hide Collides, RowLeq, ExpansionSeq;
    var es := ExpansionSeq(rows, f);
    forall e: string
      ensures e in es <==> e in ExpansionsOf(t, f)
    {
      var k := FunctionKey(e, f.name, f.nargs);
      InGroup(rows, f, e);
      if e in ExpansionsOf(t, f) {
        assert k in t && Arity(k.name, k.nargs) == f;
        assert Row(f, e, t[k].registeredAt) in rows;
      }
      if e in es {
        var r :| r in rows && r.function_ == f && r.expansion == e;
        assert KeyOf(r) in t;
      }
    }
    GroupOrder(t, rows, f);
  }

  lemma {:induction false} InGroup(rows: seq<Row>, f: Arity, e: string)
    ensures e in ExpansionSeq(rows, f) <==> exists r <- rows :: r.function_ == f && r.expansion == e
  {
    if rows != [] {
      var front, last := rows[..|rows| - 1], rows[|rows| - 1];
      InGroup(front, f, e);
      assert rows == front + [last];
    }
  }

  lemma {:induction false} GroupOrder(t: Functions, rows: seq<Row>, f: Arity)
    requires forall r <- rows :: KeyOf(r) in t && t[KeyOf(r)].registeredAt == r.registeredAt
    requires forall i, j :: 0 <= i < j < |rows| ==> rows[i] != rows[j] && RowLeq(rows[i], rows[j])
    ensures var es := ExpansionSeq(rows, f);
            forall i, j :: 0 <= i < j < |es| ==> es[i] != es[j] && InTime(t, f, es[i], es[j])
  {
    hide ArityLeq;
    if rows != [] {
      var n := |rows| - 1;
      var front, last := rows[..n], rows[n];
      assert forall r <- front :: r in rows;
      GroupOrder(t, front, f);
      var es := ExpansionSeq(front, f);
      if last.function_ == f {
        forall i | 0 <= i < |es|
          ensures es[i] != last.expansion && InTime(t, f, es[i], last.expansion)
        {
          InGroup(front, f, es[i]);
          var r :| r in front && r.function_ == f && r.expansion == es[i];
          EarlierRow(t, rows, r);
        }
      }
    }
  }

  lemma {:induction false} EarlierRow(t: Functions, rows: seq<Row>, r: Row)
    requires rows != [] && r in rows[..|rows| - 1] && r.function_ == rows[|rows| - 1].function_
    requires forall x <- rows :: KeyOf(x) in t && t[KeyOf(x)].registeredAt == x.registeredAt
    requires forall i, j :: 0 <= i < j < |rows| ==> rows[i] != rows[j] && RowLeq(rows[i], rows[j])
    ensures var last := rows[|rows| - 1];
            && r.expansion != last.expansion
            && InTime(t, r.function_, r.expansion, last.expansion)
  {
    var n := |rows| - 1;
    var i :| 0 <= i < n && rows[i] == r;
    assert RowLeq(rows[i], rows[n]) && rows[i] in rows && rows[n] in rows;
  }

  // ----- the query has a result -----

  lemma {:induction false} ArityOrder(a: Arity, b: Arity, c: Arity)
    ensures ArityLeq(a, b) || ArityLeq(b, a)
    ensures ArityLeq(a, b) && ArityLeq(b, a) ==> a == b
    ensures ArityLeq(a, b) && ArityLeq(b, c) ==> ArityLeq(a, c)
  {
    hide Leq;
    LeqTotal(a.name, b.name);
    if Leq(a.name, b.name) && Leq(b.name, a.name) {
      LeqAntisymmetric(a.name, b.name);
    }
    if Leq(a.name, b.name) && Leq(b.name, c.name) {
      LeqTransitive(a.name, b.name, c.name);
      if a.name == c.name {
        LeqAntisymmetric(a.name, b.name);
      }
    }
  }

  lemma {:induction false} RowOrder(a: Row, b: Row, c: Row)
    ensures RowLeq(a, b) || RowLeq(b, a)
    ensures RowLeq(a, b) && RowLeq(b, c) ==> RowLeq(a, c)
  {
    hide ArityLeq;
    ArityOrder(a.function_, b.function_, c.function_);
    ArityOrder(b.function_, c.function_, a.function_);
  }

  predicate SortedRows(rows: seq<Row>) {
    forall i, j :: 0 <= i < j < |rows| ==> rows[i] != rows[j] && RowLeq(rows[i], rows[j])
  }

  lemma {:induction false} InsertRow(rows: seq<Row>, r: Row) returns (out: seq<Row>)
    requires SortedRows(rows) && r !in rows
    ensures SortedRows(out) && forall x: Row :: x in out <==> x in rows || x == r
  {
    hide RowLeq;
    var n := 0;
    while n < |rows| && RowLeq(rows[n], r)
      invariant n <= |rows| && forall i :: 0 <= i < n ==> RowLeq(rows[i], r)
    {
      n := n + 1;
    }
    out := rows[..n] + [r] + rows[n..];
    forall j | n <= j < |rows|
      ensures RowLeq(r, rows[j])
    {
      RowOrder(rows[n], r, r);
      RowOrder(r, rows[n], rows[j]);
    }
    assert forall x: Row :: x in rows <==> x in rows[..n] || x in rows[n..] by {
      assert rows == rows[..n] + rows[n..];
    }
  }

  /** For every table the query has a result, so that the results about the
      list are about every table. */
  lemma {:induction false} QueryHasResult(t: Functions) returns (rows: seq<Row>)
    ensures IsQueryResult(t, rows)
  {
    hide RowLeq, Collides;
    rows := [];
    var rest := t.Keys;
    while rest != {}
      invariant rest <= t.Keys && SortedRows(rows)
      invariant forall r <- rows ::
                  && KeyOf(r) in t && KeyOf(r) !in rest
                  && t[KeyOf(r)].registeredAt == r.registeredAt && Collides(t, r.function_)
      invariant forall k <- t :: k !in rest && Collides(t, Arity(k.name, k.nargs)) ==>
                  Row(Arity(k.name, k.nargs), k.expansion, t[k].registeredAt) in rows
      decreases |rest|
    {
      var k :| k in rest;
      rest := rest - {k};
      if Collides(t, Arity(k.name, k.nargs)) {
        rows := InsertRow(rows, Row(Arity(k.name, k.nargs), k.expansion, t[k].registeredAt));
      }
    }
  }

  // ----- pins -----

  function PinnedTo(pins: Pins, f: Arity): Option<string> {
    if f in pins then Some(pins[f]) else None
  }

  /** Whether an extension with this expansion may claim the bare name. */
  predicate ShouldRegisterBare(pins: Pins, f: Arity, mine: string) {
    PinnedTo(pins, f) == None || PinnedTo(pins, f) == Some(mine)
  }

  /** Without a pin anyone may claim it. */
  lemma {:induction false} UnpinnedIsFree(pins: Pins, f: Arity, mine: string)
    ensures f !in pins ==> ShouldRegisterBare(pins, f, mine)
  {
  }

  datatype PinCall = PinCall(function_: Arity, expansion: string)

  function PinAll(pins: Pins, calls: seq<PinCall>): Pins {
    if calls == [] then pins
    else PinAll(pins, calls[..|calls| - 1])[calls[|calls| - 1].function_ := calls[|calls| - 1].expansion]
  }

  /** The last pin of a function decides who may claim its bare name; pins of
      other functions do not matter. */
  lemma {:induction false} LastPinDecides(pins: Pins, calls: seq<PinCall>, i: nat, mine: string)
    requires i < |calls| && forall j :: i < j < |calls| ==> calls[j].function_ != calls[i].function_
    ensures ShouldRegisterBare(PinAll(pins, calls), calls[i].function_, mine) <==> mine == calls[i].expansion
    decreases |calls|
  {
    if i < |calls| - 1 {
      LastPinDecides(pins, calls[..|calls| - 1], i, mine);
    }
  }
}
