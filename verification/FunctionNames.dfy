/** Names for the functions of loaded components (host/src/prefix_registry.rs:
    317-411, and its callers at host/src/lib.rs:1504-1527, 9225-9320 and
    9393-9488).

    `Table` is SQLite's: the functions the application has registered, in front
    of the built-in ones. A call takes the application's best match, exact arity
    before variadic, and a built-in one only when the application has none
    (deps/sqlite/sqlite3.c:132515-132554 and 132619-132673). */
module FunctionNames {
  import opened Text

  type Fn = nat

  /** A number of arguments, -1 for any. */
  type Narg = n: int | -1 <= n

  /** Built-in functions may also ask for one or more (-3) or for two or more
      (-4). */
  type BuiltinNarg = n: int | -1 <= n || n == -3 || n == -4

  datatype Key = Key(name: string, narg: Narg)

  datatype BuiltinKey = BuiltinKey(name: string, narg: BuiltinNarg)

  datatype Table = Table(app: map<Key, Fn>, builtin: map<BuiltinKey, Fn>)

  const FALLBACK_LIMIT := 999

  function Lower(c: char): char {
    if 'A' <= c <= 'Z' then (c as int + 32) as char else c
  }

  function Fold(s: string): string {
    seq(|s|, i requires 0 <= i < |s| => Lower(s[i]))
  }

  /** Letters of the two cases, 32 apart. */
  predicate SameLetter(c: char, d: char) {
    || c == d
    || ('A' <= c <= 'Z' && d as int == c as int + 32)
    || ('A' <= d <= 'Z' && c as int == d as int + 32)
  }

  /** Two names fold to the same name exactly when they differ in case only. */
  lemma {:induction false} FoldsTogetherIff(a: string, b: string)
    ensures Fold(a) == Fold(b) <==> |a| == |b| && forall i :: 0 <= i < |a| ==> SameLetter(a[i], b[i])
  {
    if Fold(a) == Fold(b) {
      assert |a| == |Fold(a)| == |Fold(b)| == |b|;
      forall i | 0 <= i < |a|
        ensures SameLetter(a[i], b[i])
      {
        assert Fold(a)[i] == Fold(b)[i];
      }
    }
  }

  /** Exactly the names without upper-case letters are folded already. */
  lemma {:induction false} FoldsToItselfIff(a: string)
    ensures Fold(a) == a <==> forall c <- a :: !('A' <= c <= 'Z')
  {
    if Fold(a) == a {
      forall c | c in a
        ensures !('A' <= c <= 'Z')
      {
        var i :| 0 <= i < |a| && a[i] == c;
        assert Fold(a)[i] == a[i];
      }
    } else {
      var i :| 0 <= i < |a| && Fold(a)[i] != a[i];
      assert a[i] in a;
    }
  }

  /** SQLite keeps all names in lower case. */
  predicate IsFolded(table: Table) {
    && (forall k <- table.app :: Fold(k.name) == k.name)
    && (forall k <- table.builtin :: Fold(k.name) == k.name)
  }

  predicate IsNew(table: Table, fn: Fn) {
    fn !in table.app.Values && fn !in table.builtin.Values
  }

  /** The application's function for a folded name. */
  function AppAnswer(app: map<Key, Fn>, name: string, n: nat): Option<Fn> {
    if Key(name, n) in app then Some(app[Key(name, n)])
    else if Key(name, -1) in app then Some(app[Key(name, -1)])
    else None
  }

  /** The built-in one. No name has two of the special arities. */
  function BuiltinAnswer(builtin: map<BuiltinKey, Fn>, name: string, n: nat): Option<Fn> {
    if BuiltinKey(name, n) in builtin then Some(builtin[BuiltinKey(name, n)])
    else if BuiltinKey(name, -1) in builtin then Some(builtin[BuiltinKey(name, -1)])
    else if n >= 1 && BuiltinKey(name, -3) in builtin then Some(builtin[BuiltinKey(name, -3)])
    else if n >= 2 && BuiltinKey(name, -4) in builtin then Some(builtin[BuiltinKey(name, -4)])
    else None
  }

  /** What a call of `name` with `n` arguments runs. */
  function CallOf(table: Table, name: string, n: nat): Option<Fn> {
    var a := AppAnswer(table.app, Fold(name), n);
    if a.Some? then a else BuiltinAnswer(table.builtin, Fold(name), n)
  }

  /** `sqlite3_create_function`: replaces what the application has under the
      same key. */
  function Register(table: Table, name: string, narg: Narg, fn: Fn): Table {
    table.(app := table.app[Key(Fold(name), narg) := fn])
  }

  /** The query over all rows of both kinds compares name and arity exactly. */
  predicate FunctionExists(table: Table, name: string, narg: Narg) {
    || Key(name, narg) in table.app || Key(name, -1) in table.app
    || BuiltinKey(name, narg) in table.builtin || BuiltinKey(name, -1) in table.builtin
  }

  // ----- choosing a name -----

  /** The names tried, in order. */
  function Candidate(ext: string, name: string, i: nat): string {
    var base := ext + "_" + name;
    if i == 0 then name else if i == 1 then base else base + "_" + Decimal(i)
  }

  /** The first candidate from the `i`th on that nobody holds. */
  function FirstFree(table: Table, ext: string, name: string, n: Narg, i: nat): (r: Option<string>)
    ensures r.Some? ==> !FunctionExists(table, r.value, n)
    decreases FALLBACK_LIMIT + 1 - i
  {
    if i > FALLBACK_LIMIT then None
    else if !FunctionExists(table, Candidate(ext, name, i), n) then Some(Candidate(ext, name, i))
    else FirstFree(table, ext, name, n, i + 1)
  }

  function Resolved(table: Table, ext: string, name: string, n: Narg): Option<string> {
    FirstFree(table, ext, name, n, 0)
  }

  lemma {:induction false} FirstFreeSkips(table: Table, ext: string, name: string, n: Narg, i: nat, j: nat)
    requires i <= j <= FALLBACK_LIMIT + 1
    requires forall k: nat :: i <= k < j ==> FunctionExists(table, Candidate(ext, name, k), n)
    ensures FirstFree(table, ext, name, n, i) == FirstFree(table, ext, name, n, j)
    decreases j - i
  {
    hide FunctionExists, Candidate;
    if i < j {
      FirstFreeSkips(table, ext, name, n, i + 1, j);
    }
  }

  /** The chosen name is the first free candidate; there is none exactly when
      all thousand of them are taken. */
  lemma {:induction false} ResolvedIsFirstFree(table: Table, ext: string, name: string, n: Narg)
    ensures var r := Resolved(table, ext, name, n);
            match r
            case None => forall k: nat :: k <= FALLBACK_LIMIT ==> FunctionExists(table, Candidate(ext, name, k), n)
            case Some(chosen) =>
              exists i: nat | i <= FALLBACK_LIMIT ::
                && chosen == Candidate(ext, name, i) && !FunctionExists(table, chosen, n)
                && forall k: nat :: k < i ==> FunctionExists(table, Candidate(ext, name, k), n)
  {
    hide FunctionExists, Candidate;
    var i: nat := 0;
    while i <= FALLBACK_LIMIT && FunctionExists(table, Candidate(ext, name, i), n)
      invariant i <= FALLBACK_LIMIT + 1
      invariant forall k: nat :: k < i ==> FunctionExists(table, Candidate(ext, name, k), n)
    {
      i := i + 1;
    }
    FirstFreeSkips(table, ext, name, n, 0, i);
  }

  method ResolveCollisionFreeName(table: Table, ext: string, name: string, n: Narg)
    returns (r: Option<(string, bool)>)
    ensures r.Some? <==> Resolved(table, ext, name, n).Some?
    ensures r.Some? ==> r.value.0 == Resolved(table, ext, name, n).value && (r.value.1 <==> r.value.0 != name)
  {
    hide FunctionExists;
    if !FunctionExists(table, name, n) {
      return Some((name, false));
    }
    var base := ext + "_" + name;
    assert |base| > |name|;
    if !FunctionExists(table, base, n) {
      return Some((base, true));
    }
    for i := 2 to FALLBACK_LIMIT + 1
      invariant Resolved(table, ext, name, n) == FirstFree(table, ext, name, n, i)
    {
      var candidate := base + "_" + Decimal(i);
      if !FunctionExists(table, candidate, n) {
        assert |candidate| > |name|;
        return Some((candidate, true));
      }
    }
    r := None;
  }

  // ----- registering -----

  datatype Spec = Spec(ext: string, name: string, narg: Narg, fn: Fn)

  predicate FoldedSpec(s: Spec) {
    Fold(s.ext) == s.ext && Fold(s.name) == s.name
  }

  function ResolvedFor(table: Table, s: Spec): Option<string> {
    Resolved(table, s.ext, s.name, s.narg)
  }

  /** The name registered for a scalar: the callers fall back to the bare name
      when no candidate is free. */
  function NameFor(table: Table, s: Spec): string {
    var r := ResolvedFor(table, s);
    if r.Some? then r.value else s.name
  }

  function Load(table: Table, s: Spec): Table {
    Register(table, NameFor(table, s), s.narg, s.fn)
  }

  /** What the host registers for one function: a scalar under a free name, an
      aggregate under its bare name, and either also under its qualified name,
      unchecked, when the extension has a prefix. */
  datatype Registration = Scalar(spec: Spec, prefix: Option<string>) | Aggregate(spec: Spec, prefix: Option<string>)

  function Qualified(prefix: string, name: string): string {
    prefix + "__" + name
  }

  function FirstName(table: Table, r: Registration): string {
    if r.Scalar? then NameFor(table, r.spec) else r.spec.name
  }

  function Loaded(table: Table, r: Registration): Table {
    var first := Register(table, FirstName(table, r), r.spec.narg, r.spec.fn);
    if r.prefix.None? then first
    else Register(first, Qualified(r.prefix.value, r.spec.name), r.spec.narg, r.spec.fn)
  }

  /** Every call, with any number of arguments, that ran something in `before`
      runs the same in `after`. */
  ghost predicate Preserves(before: Table, after: Table) {
    forall name: string, n: nat ::
      CallOf(before, name, n).Some? ==> CallOf(after, name, n) == CallOf(before, name, n)
  }

  predicate IsNoneOr(a: Option<Fn>, fn: Fn) {
    a == None || a == Some(fn)
  }

  /** Nobody else answers the calls that this name and arity would take over:
      for an exact arity those with that many arguments; for any arity those
      that the application holds no exact arity for, if its own variadic
      function is not held already. */
  ghost predicate Unheld(table: Table, name: string, narg: Narg, fn: Fn) {
    if narg >= 0 then IsNoneOr(CallOf(table, name, narg), fn)
    else if Key(Fold(name), -1) in table.app then table.app[Key(Fold(name), -1)] == fn
    else forall n: nat :: Key(Fold(name), n) !in table.app ==>
      IsNoneOr(BuiltinAnswer(table.builtin, Fold(name), n), fn)
  }

  ghost predicate Harmless(table: Table, r: Registration) {
    && Unheld(table, FirstName(table, r), r.spec.narg, r.spec.fn)
    && (r.prefix.Some? ==> Unheld(table, Qualified(r.prefix.value, r.spec.name), r.spec.narg, r.spec.fn))
  }

  lemma {:induction false} FoldIsIdempotent(s: string)
    ensures Fold(Fold(s)) == Fold(s)
  {
  }

  lemma {:induction false} FoldConcat(a: string, b: string)
    ensures Fold(a + b) == Fold(a) + Fold(b)
  {
  }

  lemma {:induction false} FoldDigits(s: string)
    requires AllDigits(s)
    ensures Fold(s) == s
  {
    assert forall i :: 0 <= i < |s| ==> s[i] in s;
  }

  lemma {:induction false} FoldedCandidate(ext: string, name: string, i: nat)
    requires Fold(ext) == ext && Fold(name) == name
    ensures Fold(Candidate(ext, name, i)) == Candidate(ext, name, i)
  {
    hide Fold;
    var base := ext + "_" + name;
    FoldConcat(ext + "_", name);
    FoldConcat(ext, "_");
    Underscore();
    if i > 1 {
      FoldDigits(Decimal(i));
      FoldConcat(base + "_", Decimal(i));
      FoldConcat(base, "_");
    }
  }

  lemma {:induction false} Underscore()
    ensures Fold("_") == "_"
  {
  }

  /** The chosen name is one of the candidates: the first free one, or the bare
      name when none is. */
  ghost predicate Chooses(table: Table, s: Spec, i: nat) {
    && i <= FALLBACK_LIMIT
    && (i == 0 || forall k: nat :: k < i ==> FunctionExists(table, Candidate(s.ext, s.name, k), s.narg))
    && (FunctionExists(table, Candidate(s.ext, s.name, i), s.narg) ==>
          i == 0 && forall k: nat :: k <= FALLBACK_LIMIT ==> FunctionExists(table, Candidate(s.ext, s.name, k), s.narg))
  }

  lemma {:induction false} NameIsCandidate(table: Table, s: Spec) returns (i: nat)
    ensures Chooses(table, s, i) && NameFor(table, s) == Candidate(s.ext, s.name, i)
    ensures ResolvedFor(table, s).None? ==> i == 0 && FunctionExists(table, s.name, s.narg)
  {
    hide FunctionExists, FirstFree;
    ResolvedIsFirstFree(table, s.ext, s.name, s.narg);
    assert Candidate(s.ext, s.name, 0) == s.name;
    if ResolvedFor(table, s).None? {
      assert FunctionExists(table, Candidate(s.ext, s.name, 0), s.narg);
      return 0;
    }
    i :| i <= FALLBACK_LIMIT && ResolvedFor(table, s).value == Candidate(s.ext, s.name, i)
         && !FunctionExists(table, Candidate(s.ext, s.name, i), s.narg)
         && forall k: nat :: k < i ==> FunctionExists(table, Candidate(s.ext, s.name, k), s.narg);
  }

  lemma {:induction false} ChoiceIsUnique(table: Table, s: Spec, i: nat, j: nat)
    requires Chooses(table, s, i) && Chooses(table, s, j)
    ensures i == j
  {
    hide FunctionExists, Candidate;
    assert i < j ==> FunctionExists(table, Candidate(s.ext, s.name, i), s.narg);
    assert j < i ==> FunctionExists(table, Candidate(s.ext, s.name, j), s.narg);
  }

  lemma {:induction false} FoldedName(table: Table, s: Spec)
    requires FoldedSpec(s)
    ensures Fold(NameFor(table, s)) == NameFor(table, s)
  {
    hide Fold, Candidate, Chooses, NameFor;
    var i := NameIsCandidate(table, s);
    FoldedCandidate(s.ext, s.name, i);
  }

  lemma {:induction false} RegisterKeepsFolded(table: Table, name: string, n: Narg, fn: Fn)
    requires IsFolded(table)
    ensures IsFolded(Register(table, name, n, fn))
  {
    hide Fold;
    FoldIsIdempotent(name);
  }

  /** A table holds some arity of a name only finitely often. */
  lemma {:induction false} FreeArity(app: map<Key, Fn>, name: string) returns (n: nat)
    ensures Key(name, n) !in app
  {
    n := 0;
    var rest := app.Keys;
    while rest != {}
      invariant forall k <- app.Keys - rest :: k.narg < n
      decreases |rest|
    {
      var k :| k in rest;
      rest := rest - {k};
      if k.narg >= n {
        n := k.narg + 1;
      }
    }
  }

  /** A call that another function answers and that would be taken over. */
  lemma {:induction false} SomeCall(table: Table, name: string, narg: Narg, fn: Fn) returns (n: nat)
    requires !Unheld(table, name, narg, fn)
    ensures narg == n || (narg == -1 && Key(Fold(name), n) !in table.app)
    ensures CallOf(table, name, n).Some? && CallOf(table, name, n) != Some(fn)
  {
    hide Fold;
    if narg >= 0 {
      n := narg;
    } else if Key(Fold(name), -1) in table.app {
      n := FreeArity(table.app, Fold(name));
    } else {
      n :| Key(Fold(name), n) !in table.app && !IsNoneOr(BuiltinAnswer(table.builtin, Fold(name), n), fn);
    }
  }

  /** Registering a function under one name, and then perhaps under another,
      changes no call exactly when no other function answers for either. */
  lemma {:induction false} LoadedPreservesIff(table: Table, r: Registration)
    ensures Preserves(table, Loaded(table, r)) <==> Harmless(table, r)
  {
    hide Fold, FirstName, Preserves;
    var a := FirstName(table, r);
    var b := if r.prefix.Some? then Qualified(r.prefix.value, r.spec.name) else a;
    hide Qualified;
    var after := Register(Register(table, a, r.spec.narg, r.spec.fn), b, r.spec.narg, r.spec.fn);
    assert Loaded(table, r) == after;
    if Harmless(table, r) {
      UnheldPreserves(table, a, b, r.spec.narg, r.spec.fn);
    } else if !Unheld(table, a, r.spec.narg, r.spec.fn) {
      HeldDoesNot(table, a, b, r.spec.narg, r.spec.fn, a);
    } else {
      HeldDoesNot(table, a, b, r.spec.narg, r.spec.fn, b);
    }
  }

  lemma {:induction false} UnheldPreserves(table: Table, a: string, b: string, narg: Narg, fn: Fn)
    requires Unheld(table, a, narg, fn) && Unheld(table, b, narg, fn)
    ensures Preserves(table, Register(Register(table, a, narg, fn), b, narg, fn))
  {
    hide Fold;
  }

  lemma {:induction false} HeldDoesNot(table: Table, a: string, b: string, narg: Narg, fn: Fn, name: string)
    requires name in {a, b} && !Unheld(table, name, narg, fn)
    ensures !Preserves(table, Register(Register(table, a, narg, fn), b, narg, fn))
  {
    hide Fold, BuiltinAnswer, Unheld;
    var n := SomeCall(table, name, narg, fn);
    var after := Register(Register(table, a, narg, fn), b, narg, fn);
    assert CallOf(after, name, n) == Some(fn);
  }

  // ----- free candidates and the built-in functions they hide -----

  /** A call that a built-in function answers would be taken over. */
  ghost predicate HidesBuiltin(table: Table, name: string, narg: Narg) {
    exists n: nat ::
      && (n == narg || (narg == -1 && Key(name, n) !in table.app))
      && BuiltinAnswer(table.builtin, name, n).Some?
  }

  /** For a new function, nobody answers the calls it would take over exactly
      when, for an exact arity, no function answers that many arguments, and, for
      any arity, the application holds no variadic one and a function of exactly
      `n` wherever a built-in one answers `n` arguments. */
  lemma {:induction false} NewIsUnheldIff(table: Table, name: string, narg: Narg, fn: Fn)
    requires IsNew(table, fn)
    ensures Unheld(table, name, narg, fn) <==>
            if narg >= 0 then CallOf(table, name, narg) == None
            else && Key(Fold(name), -1) !in table.app
                 && forall n: nat :: BuiltinAnswer(table.builtin, Fold(name), n).Some? ==>
                      Key(Fold(name), n) in table.app
  {
    hide Fold;
    forall n: nat
      ensures BuiltinAnswer(table.builtin, Fold(name), n) != Some(fn)
    {
      var b := BuiltinAnswer(table.builtin, Fold(name), n);
      assert b.Some? ==> b.value in table.builtin.Values;
    }
    if narg >= 0 && CallOf(table, name, narg).Some? {
      CallIsOld(table, name, narg);
    }
  }

  /** A name that the query finds free takes over no call exactly when it hides
      no built-in function. */
  lemma {:induction false} FreeIsUnheldIff(table: Table, name: string, narg: Narg, fn: Fn)
    requires Fold(name) == name && !FunctionExists(table, name, narg) && IsNew(table, fn)
    ensures Unheld(table, name, narg, fn) <==> !HidesBuiltin(table, name, narg)
  {
    hide Fold;
    forall n: nat
      ensures BuiltinAnswer(table.builtin, name, n) != Some(fn)
    {
      var b := BuiltinAnswer(table.builtin, name, n);
      assert b.Some? ==> b.value in table.builtin.Values;
    }
  }

  /** A name that the query finds taken is held by another function. */
  lemma {:induction false} TakenIsHeld(table: Table, name: string, narg: Narg, fn: Fn)
    requires Fold(name) == name && FunctionExists(table, name, narg) && IsNew(table, fn)
    ensures !Unheld(table, name, narg, fn)
  {
    hide Fold;
    if narg == -1 && Key(name, -1) !in table.app {
      var n := FreeArity(table.app, name);
      var b := BuiltinAnswer(table.builtin, name, n);
      assert b.Some? && b.value in table.builtin.Values;
      assert !IsNoneOr(b, fn);
    } else if narg >= 0 {
      var a := CallOf(table, name, narg);
      assert a.Some? && (a.value in table.app.Values || a.value in table.builtin.Values);
    }
  }

  const ONE_OR_MORE := {"min", "max", "concat"}
  const TWO_OR_MORE := {"concat_ws", "coalesce", "iif", "if"}

  /** Names are the same to every call when they differ in case only. */
  lemma {:induction false} CaseDoesNotMatter(table: Table, a: string, b: string, n: nat)
    requires |a| == |b| && forall i :: 0 <= i < |a| ==> SameLetter(a[i], b[i])
    ensures CallOf(table, a, n) == CallOf(table, b, n)
  {
    hide Fold;
    FoldsTogetherIff(a, b);
  }

  /** The built-in functions of special arity are SQLite's
      (deps/sqlite/sqlite3.c:137112-137143 and 137241-137243). */
  predicate IsSqlite(table: Table) {
    && (forall k <- table.builtin :: k.narg == -3 ==> k.name in ONE_OR_MORE)
    && (forall k <- table.builtin :: k.narg == -4 ==> k.name in TWO_OR_MORE)
    && (forall name <- ONE_OR_MORE :: BuiltinKey(name, -3) in table.builtin)
    && (forall name <- TWO_OR_MORE :: BuiltinKey(name, -4) in table.builtin)
  }

  /** For a fixed arity, the free names that hide a built-in are these. */
  lemma {:induction false} FixedArityHidesIff(table: Table, name: string, narg: Narg)
    requires IsSqlite(table) && narg >= 0 && !FunctionExists(table, name, narg)
    ensures HidesBuiltin(table, name, narg) <==>
            || (narg >= 1 && name in {"min", "max", "concat"})
            || (narg >= 2 && name in {"concat_ws", "coalesce", "iif", "if"})
  {
    var n: nat := narg;
    assert BuiltinKey(name, n) !in table.builtin && BuiltinKey(name, -1) !in table.builtin;
    assert HidesBuiltin(table, name, narg) <==> BuiltinAnswer(table.builtin, name, n).Some?;
  }

  /** One scalar with lower-case names: the name it gets was free to the query,
      no earlier call changes exactly when it hides no built-in function, and a
      call under that name runs it if it has that many arguments, or if it takes
      any number and the application holds no function of exactly that arity. */
  lemma {:induction false} LoadPreserves(table: Table, s: Spec)
    requires FoldedSpec(s) && ResolvedFor(table, s).Some? && IsNew(table, s.fn)
    ensures !FunctionExists(table, NameFor(table, s), s.narg)
    ensures Preserves(table, Load(table, s)) <==> !HidesBuiltin(table, NameFor(table, s), s.narg)
    ensures forall n: nat :: s.narg == n || s.narg == -1 ==>
              CallOf(Load(table, s), NameFor(table, s), n) ==
              if s.narg == -1 && Key(NameFor(table, s), n) in table.app
              then Some(table.app[Key(NameFor(table, s), n)]) else Some(s.fn)
  {
    hide Fold, FirstFree, NameFor, FunctionExists, HidesBuiltin, Unheld, Preserves;
    FoldedName(table, s);
    ResolvedIsFree(table, s);
    FreeIsUnheldIff(table, NameFor(table, s), s.narg, s.fn);
    LoadedPreservesIff(table, Scalar(s, None));
  }

  lemma {:induction false} ResolvedIsFree(table: Table, s: Spec)
    requires ResolvedFor(table, s).Some?
    ensures !FunctionExists(table, NameFor(table, s), s.narg)
  {
    hide FunctionExists, FirstFree;
  }

  /** The bare registration of a new scalar changes no call exactly when some
      candidate was free and the one chosen hides no built-in function. */
  lemma {:induction false} NameIsUnheldIff(table: Table, s: Spec)
    requires FoldedSpec(s) && IsNew(table, s.fn)
    ensures Unheld(table, NameFor(table, s), s.narg, s.fn) <==>
            ResolvedFor(table, s).Some? && !HidesBuiltin(table, NameFor(table, s), s.narg)
  {
    hide Fold, FirstFree, NameFor, FunctionExists, HidesBuiltin, Unheld;
    FoldedName(table, s);
    if ResolvedFor(table, s).Some? {
      ResolvedIsFree(table, s);
      FreeIsUnheldIff(table, NameFor(table, s), s.narg, s.fn);
    } else {
      var i := NameIsCandidate(table, s);
      BareName(table, s);
      TakenIsHeld(table, s.name, s.narg, s.fn);
    }
  }

  /** Loading a new scalar, with its fallback to the bare name and its qualified
      name, changes no call exactly when some candidate was free, the one chosen
      hides no built-in function, and nobody held the qualified name. */
  lemma {:induction false} LoadPreservesIff(table: Table, s: Spec, prefix: Option<string>)
    requires FoldedSpec(s) && IsNew(table, s.fn)
    ensures Preserves(table, Loaded(table, Scalar(s, prefix))) <==>
            && ResolvedFor(table, s).Some? && !HidesBuiltin(table, NameFor(table, s), s.narg)
            && (prefix.Some? ==> Unheld(table, Qualified(prefix.value, s.name), s.narg, s.fn))
  {
    hide Fold, FirstFree, NameFor, Loaded, Preserves, Qualified, Unheld, HidesBuiltin;
    LoadedPreservesIff(table, Scalar(s, prefix));
    NameIsUnheldIff(table, s);
  }

  lemma {:induction false} BareName(table: Table, s: Spec)
    ensures ResolvedFor(table, s).None? ==> NameFor(table, s) == s.name
  {
  }

  /** A new aggregate is registered unchecked: it changes no call exactly when
      nobody held its bare name and nobody its qualified name. */
  lemma {:induction false} AggregatePreservesIff(table: Table, s: Spec, prefix: Option<string>)
    ensures Preserves(table, Loaded(table, Aggregate(s, prefix))) <==>
            && Unheld(table, s.name, s.narg, s.fn)
            && (prefix.Some? ==> Unheld(table, Qualified(prefix.value, s.name), s.narg, s.fn))
  {
    hide Fold, Loaded, Preserves, Qualified, Unheld;
    LoadedPreservesIff(table, Aggregate(s, prefix));
  }

  /** Loading an extension's scalar again, its qualified name being held already,
      changes no call exactly when the function is the same and the name it now
      gets is nobody else's. */
  lemma {:induction false} ReloadPreservesIff(table: Table, s: Spec, prefix: string, fn: Fn)
    ensures var t, again := Loaded(table, Scalar(s, Some(prefix))), Scalar(s.(fn := fn), Some(prefix));
            Preserves(t, Loaded(t, again)) <==> fn == s.fn && Unheld(t, NameFor(t, s), s.narg, fn)
  {
    hide Fold, FirstFree, NameFor, Qualified, Preserves;
    var t, again := Loaded(table, Scalar(s, Some(prefix))), Scalar(s.(fn := fn), Some(prefix));
    var k := Key(Fold(Qualified(prefix, s.name)), s.narg);
    assert k in t.app && t.app[k] == s.fn;
    assert NameFor(t, again.spec) == NameFor(t, s) by { SameName(t, s, fn); }
    LoadedPreservesIff(t, again);
  }

  lemma {:induction false} SameName(table: Table, s: Spec, fn: Fn)
    ensures NameFor(table, s.(fn := fn)) == NameFor(table, s)
  {
    hide FirstFree;
  }

  /** SQLite's `max` takes one or more arguments, which the query does not see:
      a scalar `max` of two arguments gets the bare name and takes its calls. */
  lemma {:induction false} MaxIsTakenOver()
    ensures var table := Table(map[], map[BuiltinKey("max", -3) := 0, BuiltinKey("max", 1) := 1]);
            var s := Spec("x", "max", 2, 7);
            && ResolvedFor(table, s) == Some("max") && CallOf(table, "max", 2) == Some(0)
            && CallOf(Load(table, s), "max", 2) == Some(7)
  {
    assert Fold("max") == "max";
  }

  /** A variadic `upper` gets the bare name, as the query looks for arity -1
      only, and then takes the calls of the built-in `upper` of one argument;
      those of an application's `upper` of one argument it leaves alone. */
  lemma {:induction false} VariadicUpper()
    ensures var builtin := Table(map[], map[BuiltinKey("upper", 1) := 0]);
            var app := Table(map[Key("upper", 1) := 0], map[]);
            var s := Spec("x", "upper", -1, 7);
            && ResolvedFor(builtin, s) == Some("upper") && CallOf(builtin, "upper", 1) == Some(0)
            && CallOf(Load(builtin, s), "upper", 1) == Some(7)
            && ResolvedFor(app, s) == Some("upper") && CallOf(Load(app, s), "upper", 1) == Some(0)
            && CallOf(Load(app, s), "upper", 2) == Some(7)
  {
    assert Fold("upper") == "upper";
  }

  /** After a load with a prefix the function is called by the prefix, two
      underscores and its name. */
  lemma {:induction false} QualifiedIsCalled(table: Table, r: Registration, n: nat)
    requires r.prefix.Some? && r.spec.narg == n
    ensures CallOf(Loaded(table, r), r.prefix.value + "__" + r.spec.name, n) == Some(r.spec.fn)
  {
    hide Fold, FirstName;
  }

  /** The first two names tried, as they are written. */
  lemma {:induction false} ChosenNameIs(table: Table, ext: string, name: string, narg: Narg)
    ensures !FunctionExists(table, name, narg) ==> Resolved(table, ext, name, narg) == Some(name)
    ensures FunctionExists(table, name, narg) && !FunctionExists(table, ext + "_" + name, narg) ==>
              Resolved(table, ext, name, narg) == Some(ext + "_" + name)
  {
    hide FunctionExists;
  }

  /** The numbered ones, from 2 to 999; with all of them taken there is none. */
  lemma {:induction false} NumberedNameIs(table: Table, ext: string, name: string, narg: Narg, i: nat)
    requires 2 <= i <= 1000
    requires FunctionExists(table, name, narg) && FunctionExists(table, ext + "_" + name, narg)
    requires forall k: nat :: 2 <= k < i ==> FunctionExists(table, ext + "_" + name + "_" + Decimal(k), narg)
    requires i < 1000 ==> !FunctionExists(table, ext + "_" + name + "_" + Decimal(i), narg)
    ensures Resolved(table, ext, name, narg) == if i < 1000 then Some(ext + "_" + name + "_" + Decimal(i)) else None
  {
    hide FunctionExists, Decimal;
    forall k: nat | k < i
      ensures FunctionExists(table, Candidate(ext, name, k), narg)
    {
      assert k >= 2 ==> Candidate(ext, name, k) == ext + "_" + name + "_" + Decimal(k);
    }
    FirstFreeSkips(table, ext, name, narg, 0, i);
  }

  // ----- a session of loads -----

  function LoadAll(table: Table, loads: seq<Registration>): Table {
    if loads == [] then table else Loaded(LoadAll(table, loads[..|loads| - 1]), loads[|loads| - 1])
  }

  /** A session is its loads one after the other. */
  lemma {:induction false} LoadAllIs(table: Table, loads: seq<Registration>, r: Registration)
    ensures LoadAll(table, []) == table && LoadAll(table, loads + [r]) == Loaded(LoadAll(table, loads), r)
  {
    hide Loaded;
    assert (loads + [r])[..|loads + [r]| - 1] == loads;
  }

  lemma {:induction false} PreservesTransitive(a: Table, b: Table, c: Table)
    requires Preserves(a, b) && Preserves(b, c)
    ensures Preserves(a, c)
  {
    hide CallOf;
  }

  lemma {:induction false} PreservesItself(table: Table)
    ensures Preserves(table, table)
  {
    hide CallOf;
  }

  /** At every load of the session, `loads[i]` meeting the table left by those
      before it, no other function answers for the names registered. */
  ghost predicate AllHarmless(table: Table, loads: seq<Registration>) {
    loads == [] ||
    (&& AllHarmless(table, loads[..|loads| - 1])
     && Harmless(LoadAll(table, loads[..|loads| - 1]), loads[|loads| - 1]))
  }

  lemma {:induction false} AllHarmlessIff(table: Table, loads: seq<Registration>)
    ensures AllHarmless(table, loads) <==>
            forall i :: 0 <= i < |loads| ==> Harmless(LoadAll(table, loads[..i]), loads[i])
  {
    hide Harmless, LoadAll;
    if loads != [] {
      var front := loads[..|loads| - 1];
      AllHarmlessIff(table, front);
      forall i | 0 <= i < |front|
        ensures front[..i] == loads[..i] && front[i] == loads[i]
      {
      }
    }
  }

  lemma {:induction false} LoadNext(table: Table, loads: seq<Registration>, i: nat)
    requires i < |loads|
    ensures LoadAll(table, loads[..i + 1]) == Loaded(LoadAll(table, loads[..i]), loads[i])
  {
    hide Loaded;
    assert loads[..i + 1][..i] == loads[..i];
  }

  lemma {:induction false} PreservedFrom(table: Table, loads: seq<Registration>, i: nat, j: nat)
    requires i <= j <= |loads| && AllHarmless(table, loads)
    ensures Preserves(LoadAll(table, loads[..i]), LoadAll(table, loads[..j]))
    decreases j - i
  {
    hide Preserves, Harmless, Loaded, LoadAll, AllHarmless;
    AllHarmlessIff(table, loads);
    if i == j {
      PreservesItself(LoadAll(table, loads[..i]));
    } else {
      PreservedFrom(table, loads, i, j - 1);
      LoadNext(table, loads, j - 1);
      LoadedPreservesIff(LoadAll(table, loads[..j - 1]), loads[j - 1]);
      PreservesTransitive(LoadAll(table, loads[..i]), LoadAll(table, loads[..j - 1]), LoadAll(table, loads[..j]));
    }
  }

  /** Over any session of scalars and aggregates, whatever a call runs at any
      point it still runs at every later point, exactly when every load is
      harmless. */
  lemma {:induction false} SessionNeverClobbersIff(table: Table, loads: seq<Registration>)
    ensures (forall i, j :: 0 <= i <= j <= |loads| ==>
               Preserves(LoadAll(table, loads[..i]), LoadAll(table, loads[..j])))
            <==> AllHarmless(table, loads)
  {
    hide Preserves, Harmless, Loaded, LoadAll, AllHarmless;
    AllHarmlessIff(table, loads);
    if AllHarmless(table, loads) {
      forall i, j | 0 <= i <= j <= |loads|
        ensures Preserves(LoadAll(table, loads[..i]), LoadAll(table, loads[..j]))
      {
        PreservedFrom(table, loads, i, j);
      }
    } else {
      var i :| 0 <= i < |loads| && !Harmless(LoadAll(table, loads[..i]), loads[i]);
      LoadNext(table, loads, i);
      LoadedPreservesIff(LoadAll(table, loads[..i]), loads[i]);
      assert !Preserves(LoadAll(table, loads[..i]), LoadAll(table, loads[..i + 1]));
    }
  }

  /** A harmless load replaces nothing. */
  lemma {:induction false} HarmlessGrows(table: Table, r: Registration)
    requires Harmless(table, r)
    ensures var after := Loaded(table, r);
            && after.builtin == table.builtin
            && (forall k <- table.app :: k in after.app && after.app[k] == table.app[k])
            && (forall k <- after.app :: k in table.app || (after.app[k] == r.spec.fn && k.narg == r.spec.narg))
  {
    hide Fold, FirstName, Qualified;
  }

  lemma {:induction false} KeysStay(table: Table, loads: seq<Registration>, i: nat, k: Key)
    requires i <= |loads| && AllHarmless(table, loads) && k in LoadAll(table, loads[..i]).app
    ensures k in LoadAll(table, loads).app && LoadAll(table, loads).app[k] == LoadAll(table, loads[..i]).app[k]
    decreases |loads| - i
  {
    hide Harmless, Loaded, LoadAll, AllHarmless;
    AllHarmlessIff(table, loads);
    if i == |loads| {
      assert loads[..i] == loads;
    } else {
      LoadNext(table, loads, i);
      HarmlessGrows(LoadAll(table, loads[..i]), loads[i]);
      KeysStay(table, loads, i + 1, k);
    }
  }

  /** A function that always comes with one arity is held with that arity only,
      and never becomes a built-in one. */
  lemma {:induction false} HeldWithItsArity(
      table: Table, loads: seq<Registration>, i: nat, fn: Fn, narg: Narg, k: Key)
    requires i <= |loads| && AllHarmless(table, loads) && IsNew(table, fn)
    requires forall r <- loads :: r.spec.fn == fn ==> r.spec.narg == narg
    ensures k in LoadAll(table, loads[..i]).app && LoadAll(table, loads[..i]).app[k] == fn ==> k.narg == narg
    ensures LoadAll(table, loads[..i]).builtin == table.builtin
  {
    hide Harmless, Loaded, AllHarmless;
    AllHarmlessIff(table, loads);
    if i > 0 {
      hide LoadAll;
      LoadNext(table, loads, i - 1);
      HarmlessGrows(LoadAll(table, loads[..i - 1]), loads[i - 1]);
      assert loads[i - 1] in loads;
      HeldWithItsArity(table, loads, i - 1, fn, narg, k);
    }
  }

  /** At the end of a harmless session a call of `n` arguments, under any name
      a loaded function got, runs that function exactly when it has `n`
      arguments, or takes any number and the application holds no function of
      exactly `n` under that name. */
  lemma {:induction false} LoadedStaysCallable(table: Table, loads: seq<Registration>, i: nat, name: string, n: nat)
    requires i < |loads| && AllHarmless(table, loads)
    requires || name == FirstName(LoadAll(table, loads[..i]), loads[i])
             || (loads[i].prefix.Some? && name == Qualified(loads[i].prefix.value, loads[i].spec.name))
    requires IsNew(table, loads[i].spec.fn)
    requires forall r <- loads :: r.spec.fn == loads[i].spec.fn ==> r.spec.narg == loads[i].spec.narg
    ensures var s, end := loads[i].spec, LoadAll(table, loads);
            CallOf(end, name, n) == Some(s.fn) <==>
            s.narg == n || (s.narg == -1 && Key(Fold(name), n) !in end.app)
  {
    hide Fold, Harmless, FirstName, Qualified, LoadAll, AllHarmless;
    var s, end, k := loads[i].spec, LoadAll(table, loads), Key(Fold(name), loads[i].spec.narg);
    LoadNext(table, loads, i);
    assert LoadAll(table, loads[..i + 1]).app[k] == s.fn;
    KeysStay(table, loads, i + 1, k);
    assert loads[..|loads|] == loads;
    HeldWithItsArity(table, loads, |loads|, s.fn, s.narg, Key(Fold(name), n));
    HeldWithItsArity(table, loads, |loads|, s.fn, s.narg, Key(Fold(name), -1));
    var b := BuiltinAnswer(table.builtin, Fold(name), n);
    assert b.Some? ==> b.value in table.builtin.Values;
  }

  // ----- letter case -----

  lemma {:induction false} FoldedSpecIs(s: Spec)
    ensures FoldedSpec(s) <==> forall c <- s.ext + s.name :: !('A' <= c <= 'Z')
  {
    hide Fold;
    FoldsToItselfIff(s.ext);
    FoldsToItselfIff(s.name);
    assert forall c: char :: c in s.ext + s.name <==> c in s.ext || c in s.name;
  }

  /** In every table, a load that finds a candidate free and hides no built-in
      function under it disturbs no call, exactly when extension and function
      name are in lower case already. */
  lemma {:induction false} FoldingMatters(s: Spec)
    ensures (forall table: Table | IsFolded(table) && IsNew(table, s.fn) && ResolvedFor(table, s).Some? ::
               !HidesBuiltin(table, NameFor(table, s), s.narg) ==> Preserves(table, Load(table, s)))
            <==> forall c <- s.ext + s.name :: !('A' <= c <= 'Z')
  {
    hide Fold, FirstFree, FunctionExists, CallOf, Preserves, Candidate, Register, HidesBuiltin, IsNew, NameFor;
    FoldedSpecIs(s);
    if FoldedSpec(s) {
      forall table: Table | IsFolded(table) && IsNew(table, s.fn) && ResolvedFor(table, s).Some?
        ensures !HidesBuiltin(table, NameFor(table, s), s.narg) ==> Preserves(table, Load(table, s))
      {
        LoadPreserves(table, s);
      }
    } else {
      var table;
      if Fold(s.name) != s.name {
        table := UpperName(s);
      } else {
        table := UpperExt(s);
      }
      NothingBuiltin(table, NameFor(table, s), s.narg);
      assert !Preserves(table, Load(table, s));
    }
  }

  lemma {:induction false} NothingBuiltin(table: Table, name: string, narg: Narg)
    requires table.builtin == map[]
    ensures !HidesBuiltin(table, name, narg)
  {
  }

  /** A function called as the extension's own lower-case name is lost. */
  lemma {:induction false} UpperName(s: Spec) returns (table: Table)
    requires Fold(s.name) != s.name
    ensures table.builtin == map[] && IsFolded(table) && IsNew(table, s.fn)
    ensures ResolvedFor(table, s).Some? && !Preserves(table, Load(table, s))
  {
    hide Fold;
    FoldIsIdempotent(s.name);
    table := Table(map[Key(Fold(s.name), s.narg) := s.fn + 1], map[]);
    var n: nat := if s.narg >= 0 then s.narg else 0;
    assert ResolvedFor(table, s) == Some(s.name);
    assert CallOf(table, s.name, n) == Some(s.fn + 1);
    assert CallOf(Load(table, s), s.name, n) == Some(s.fn);
  }

  lemma {:induction false} UpperExt(s: Spec) returns (table: Table)
    requires Fold(s.name) == s.name && Fold(s.ext) != s.ext
    ensures table.builtin == map[] && IsFolded(table) && IsNew(table, s.fn)
    ensures ResolvedFor(table, s).Some? && !Preserves(table, Load(table, s))
  {
    hide Fold, Decimal;
    var base := s.ext + "_" + s.name;
    FoldIsIdempotent(base);
    FoldConcat(s.ext + "_", s.name);
    FoldConcat(s.ext, "_");
    FoldLength(s.ext);
    assert Fold(base)[..|s.ext|] == Fold(s.ext) && base[..|s.ext|] == s.ext;
    assert Fold(base) != base;
    table := Table(map[Key(s.name, s.narg) := s.fn + 1, Key(Fold(base), s.narg) := s.fn + 1], map[]);
    var n: nat := if s.narg >= 0 then s.narg else 0;
    assert Candidate(s.ext, s.name, 1) == base;
    assert ResolvedFor(table, s) == FirstFree(table, s.ext, s.name, s.narg, 1) == Some(base);
    assert CallOf(table, base, n) == Some(s.fn + 1);
    assert CallOf(Load(table, s), base, n) == Some(s.fn);
  }

  lemma {:induction false} FoldLength(s: string)
    ensures |Fold(s)| == |s|
  {
  }

  // ----- a provider's whole manifest -----

  function RegisterAll(table: Table, names: seq<string>, specs: seq<Spec>): Table
    requires |names| == |specs|
  {
    var n := |specs|;
    if n == 0 then table
    else Register(RegisterAll(table, names[..n - 1], specs[..n - 1]), names[n - 1], specs[n - 1].narg, specs[n - 1].fn)
  }

  lemma {:induction false} RegisterAllIs(
      table: Table, names: seq<string>, specs: seq<Spec>, name: string, s: Spec)
    requires |names| == |specs|
    ensures RegisterAll(table, [], []) == table
    ensures RegisterAll(table, names + [name], specs + [s]) ==
            Register(RegisterAll(table, names, specs), name, s.narg, s.fn)
  {
    hide Register;
    assert (names + [name])[..|names|] == names && (specs + [s])[..|specs|] == specs;
  }

  /** A provider's manifest: all names are chosen before any is registered. */
  function Names(table: Table, specs: seq<Spec>): (names: seq<string>)
    ensures |names| == |specs|
  {
    seq(|specs|, i requires 0 <= i < |specs| => NameFor(table, specs[i]))
  }

  function LoadBatch(table: Table, specs: seq<Spec>): Table {
    RegisterAll(table, Names(table, specs), specs)
  }

  /** After registering, a key holds a function of the batch if the batch used
      it, and what it held before if not. */
  lemma {:induction false} RegisterAllAt(table: Table, names: seq<string>, specs: seq<Spec>, k: Key)
    requires |names| == |specs|
    ensures var after := RegisterAll(table, names, specs);
            if exists i :: 0 <= i < |specs| && Key(Fold(names[i]), specs[i].narg) == k
            then k in after.app &&
                 exists i :: 0 <= i < |specs| && Key(Fold(names[i]), specs[i].narg) == k && after.app[k] == specs[i].fn
            else (k in after.app <==> k in table.app) && (k in table.app ==> after.app[k] == table.app[k])
    ensures RegisterAll(table, names, specs).builtin == table.builtin
    decreases |specs|
  {
    hide Fold;
    var n := |specs|;
    if n > 0 {
      var names', specs' := names[..n - 1], specs[..n - 1];
      RegisterAllAt(table, names', specs', k);
      if Key(Fold(names[n - 1]), specs[n - 1].narg) != k {
        if i :| 0 <= i < n && Key(Fold(names[i]), specs[i].narg) == k {
          assert names'[i] == names[i] && specs'[i] == specs[i];
        }
      }
    }
  }

  /** A manifest of new functions keeps every earlier call exactly when each of
      them found a candidate free and hides no built-in function under it. */
  lemma {:induction false} BatchPreservesIff(table: Table, specs: seq<Spec>)
    requires forall s <- specs :: FoldedSpec(s) && IsNew(table, s.fn)
    ensures Preserves(table, LoadBatch(table, specs)) <==>
            forall s <- specs :: ResolvedFor(table, s).Some? && !HidesBuiltin(table, NameFor(table, s), s.narg)
  {
    hide Preserves, Fold, FirstFree, NameFor, RegisterAll, HidesBuiltin, Unheld, FoldedSpec, IsNew;
    forall s | s in specs
      ensures Unheld(table, NameFor(table, s), s.narg, s.fn) <==>
              ResolvedFor(table, s).Some? && !HidesBuiltin(table, NameFor(table, s), s.narg)
    {
      NameIsUnheldIff(table, s);
    }
    if i :| 0 <= i < |specs| && !Unheld(table, NameFor(table, specs[i]), specs[i].narg, specs[i].fn) {
      BatchClobbers(table, specs, i);
      assert specs[i] in specs;
    } else {
      BatchPreserves(table, specs);
    }
  }

  lemma {:induction false} BatchPreserves(table: Table, specs: seq<Spec>)
    requires forall s <- specs :: IsNew(table, s.fn)
    requires forall i :: 0 <= i < |specs| ==> Unheld(table, NameFor(table, specs[i]), specs[i].narg, specs[i].fn)
    ensures Preserves(table, LoadBatch(table, specs))
  {
    hide Fold, RegisterAll, NameFor, Unheld, CallOf, IsNew;
    forall name: string, n: nat | CallOf(table, name, n).Some?
      ensures CallOf(LoadBatch(table, specs), name, n) == CallOf(table, name, n)
    {
      BatchKeepsCall(table, specs, name, n);
    }
  }

  lemma {:induction false} BatchKeepsCall(table: Table, specs: seq<Spec>, name: string, n: nat)
    requires forall s <- specs :: IsNew(table, s.fn)
    requires forall i :: 0 <= i < |specs| ==> Unheld(table, NameFor(table, specs[i]), specs[i].narg, specs[i].fn)
    requires CallOf(table, name, n).Some?
    ensures CallOf(LoadBatch(table, specs), name, n) == CallOf(table, name, n)
  {
    hide Fold, RegisterAll, NameFor, BuiltinAnswer;
    var names := Names(table, specs);
    RegisterAllAt(table, names, specs, Key(Fold(name), n));
    RegisterAllAt(table, names, specs, Key(Fold(name), -1));
    CallIsOld(table, name, n);
    forall i | 0 <= i < |specs|
      ensures specs[i].fn != CallOf(table, name, n).value
      ensures Key(Fold(names[i]), specs[i].narg) != Key(Fold(name), n)
      ensures Key(Fold(names[i]), specs[i].narg) == Key(Fold(name), -1) ==> Key(Fold(name), n) in table.app
    {
      assert specs[i] in specs;
      assert Unheld(table, names[i], specs[i].narg, specs[i].fn);
    }
  }

  lemma {:induction false} CallIsOld(table: Table, name: string, n: nat)
    requires CallOf(table, name, n).Some?
    ensures !IsNew(table, CallOf(table, name, n).value)
    ensures Key(Fold(name), -1) in table.app ==> !IsNew(table, table.app[Key(Fold(name), -1)])
  {
    hide Fold;
    var a := CallOf(table, name, n);
    assert a.value in table.app.Values || a.value in table.builtin.Values;
  }

  lemma {:induction false} BatchClobbers(table: Table, specs: seq<Spec>, i: nat)
    requires i < |specs| && !Unheld(table, NameFor(table, specs[i]), specs[i].narg, specs[i].fn)
    requires forall s <- specs :: IsNew(table, s.fn)
    ensures !Preserves(table, LoadBatch(table, specs))
  {
    hide Fold, RegisterAll, NameFor, Unheld, BuiltinAnswer;
    var s, names, after := specs[i], Names(table, specs), LoadBatch(table, specs);
    var name := names[i];
    var n := SomeCall(table, name, s.narg, s.fn);
    RegisterAllAt(table, names, specs, Key(Fold(name), s.narg));
    RegisterAllAt(table, names, specs, Key(Fold(name), n));
    CallIsOld(table, name, n);
    assert CallOf(after, name, n).Some?;
    assert exists j :: 0 <= j < |specs| && specs[j].fn == CallOf(after, name, n).value;
    var j :| 0 <= j < |specs| && specs[j].fn == CallOf(after, name, n).value;
    assert specs[j] in specs;
  }

  /** Each function of the batch is held under the name chosen for it. */
  ghost predicate AllHeld(table: Table, specs: seq<Spec>) {
    var names, after := Names(table, specs), LoadBatch(table, specs);
    forall i :: 0 <= i < |specs| ==>
      && Key(Fold(names[i]), specs[i].narg) in after.app
      && after.app[Key(Fold(names[i]), specs[i].narg)] == specs[i].fn
  }

  /** What that means for calls, when the functions are new and different: a
      call of `n` arguments under its chosen name runs a function held exactly
      when it has `n` arguments, or takes any number and the application holds
      no function of exactly `n` under that name. */
  lemma {:induction false} HeldIsCalled(table: Table, specs: seq<Spec>, i: nat, n: nat)
    requires AllHeld(table, specs) && i < |specs| && IsNew(table, specs[i].fn)
    requires forall i, j :: 0 <= i < j < |specs| ==> specs[i].fn != specs[j].fn
    ensures var s, name, after := specs[i], NameFor(table, specs[i]), LoadBatch(table, specs);
            CallOf(after, name, n) == Some(s.fn) <==>
            s.narg == n || (s.narg == -1 && Key(Fold(name), n) !in after.app)
  {
    hide Fold, NameFor, RegisterAll;
    var s, names, f := specs[i], Names(table, specs), Fold(NameFor(table, specs[i]));
    RegisterAllAt(table, names, specs, Key(f, n));
    RegisterAllAt(table, names, specs, Key(f, -1));
    var b := BuiltinAnswer(table.builtin, f, n);
    assert b.Some? ==> b.value in table.builtin.Values;
  }

  /** Different functions are all held exactly when no two were given the same
      name and arity. */
  lemma {:induction false} AllHeldIff(table: Table, specs: seq<Spec>)
    requires forall i, j :: 0 <= i < j < |specs| ==> specs[i].fn != specs[j].fn
    ensures AllHeld(table, specs) <==>
            forall i, j :: 0 <= i < j < |specs| ==>
              Key(Fold(NameFor(table, specs[i])), specs[i].narg) != Key(Fold(NameFor(table, specs[j])), specs[j].narg)
  {
    hide Fold, NameFor, RegisterAll;
    var names, after := Names(table, specs), LoadBatch(table, specs);
    forall i | 0 <= i < |specs|
      ensures var k := Key(Fold(names[i]), specs[i].narg);
              k in after.app &&
              exists j :: 0 <= j < |specs| && Key(Fold(names[j]), specs[j].narg) == k && after.app[k] == specs[j].fn
    {
      RegisterAllAt(table, names, specs, Key(Fold(names[i]), specs[i].narg));
    }
  }

  /** Two functions of the manifest meet at one candidate, the choice of both. */
  ghost predicate Meet(table: Table, a: Spec, b: Spec) {
    a.narg == b.narg && exists p: nat, q: nat | Chooses(table, a, p) && Chooses(table, b, q) ::
      Candidate(a.ext, a.name, p) == Candidate(b.ext, b.name, q)
  }

  /** In a given table, a manifest's functions are all held exactly when no two
      of equal arity meet at the first free candidate of both. */
  lemma {:induction false} BatchHeldIff(table: Table, specs: seq<Spec>)
    requires forall s <- specs :: FoldedSpec(s)
    requires forall i, j :: 0 <= i < j < |specs| ==> specs[i].fn != specs[j].fn
    ensures AllHeld(table, specs) <==> forall i, j :: 0 <= i < j < |specs| ==> !Meet(table, specs[i], specs[j])
  {
    hide Fold, NameFor, AllHeld, Meet, FoldedSpec;
    AllHeldIff(table, specs);
    forall i, j | 0 <= i < j < |specs|
      ensures Meet(table, specs[i], specs[j]) <==>
              Key(Fold(NameFor(table, specs[i])), specs[i].narg) == Key(Fold(NameFor(table, specs[j])), specs[j].narg)
    {
      assert specs[i] in specs && specs[j] in specs;
      MeetIff(table, specs[i], specs[j]);
    }
  }

  lemma {:induction false} MeetIff(table: Table, a: Spec, b: Spec)
    requires FoldedSpec(a) && FoldedSpec(b)
    ensures Meet(table, a, b) <==> Key(Fold(NameFor(table, a)), a.narg) == Key(Fold(NameFor(table, b)), b.narg)
  {
    hide Fold, NameFor, Chooses, Candidate;
    FoldedName(table, a);
    FoldedName(table, b);
    var p := NameIsCandidate(table, a);
    var q := NameIsCandidate(table, b);
    if Meet(table, a, b) {
      var p': nat, q': nat :| Chooses(table, a, p') && Chooses(table, b, q')
                              && Candidate(a.ext, a.name, p') == Candidate(b.ext, b.name, q');
      ChoiceIsUnique(table, a, p, p');
      ChoiceIsUnique(table, b, q, q');
    }
  }

  // ----- which manifests are safe in every table -----

  /** One declared name is also the other's, a name that the other falls back
      to, or the other's with a fallback number. */
  predicate Shadows(a: Spec, b: Spec) {
    || a.name == b.name
    || (exists q: nat | 1 <= q <= FALLBACK_LIMIT :: a.name == Candidate(b.ext, b.name, q))
    || (exists q: nat | 2 <= q <= FALLBACK_LIMIT :: a.name == b.name + "_" + Decimal(q))
  }

  predicate Clash(a: Spec, b: Spec) {
    a.narg == b.narg && (Shadows(a, b) || Shadows(b, a))
  }

  lemma {:induction false} NumberHasNoUnderscore(n: nat)
    ensures '_' !in Decimal(n)
  {
    hide Decimal;
    assert forall c <- Decimal(n) :: IsDigit(c);
  }

  /** The text behind the last underscore is determined. */
  lemma {:induction false} NumberedApart(a: string, d: string, b: string, e: string)
    requires '_' !in d && '_' !in e && a + "_" + d == b + "_" + e
    ensures a == b && d == e
  {
    var s := a + "_" + d;
    assert s[|a|] == '_' && s[|b|] == '_';
    assert forall k :: |a| < k < |s| ==> s[k] == d[k - |a| - 1] && s[k] in d;
    assert forall k :: |b| < k < |s| ==> s[k] == e[k - |b| - 1] && s[k] in e;
    assert |a| == |b|;
    assert s[..|a|] == a && s[..|b|] == b;
    assert s[|a| + 1..] == d && s[|b| + 1..] == e;
  }

  lemma {:induction false} CutFront(x: string, a: string, b: string)
    requires x + a == x + b
    ensures a == b
  {
    assert (x + a)[|x|..] == a && (x + b)[|x|..] == b;
  }

  /** The candidates of one name are all different. */
  lemma {:induction false} CandidatesDiffer(ext: string, name: string, p: nat, q: nat)
    requires p < q
    ensures Candidate(ext, name, p) != Candidate(ext, name, q)
  {
    hide Decimal;
    var base := ext + "_" + name;
    assert |Candidate(ext, name, 0)| < |base|;
    assert |Candidate(ext, name, q)| >= |base| && (q > 1 ==> |Candidate(ext, name, q)| > |base|);
    if p > 1 {
      NumberHasNoUnderscore(p);
      NumberHasNoUnderscore(q);
      if Candidate(ext, name, p) == Candidate(ext, name, q) {
        NumberedApart(base, Decimal(p), base, Decimal(q));
        DecimalValue(p);
        DecimalValue(q);
      }
    }
  }

  /** Two functions of one extension that do not clash have no candidate in
      common. */
  lemma {:induction false} CandidatesApart(a: Spec, b: Spec, p: nat, q: nat)
    requires a.ext == b.ext && !Shadows(a, b) && !Shadows(b, a) && p <= FALLBACK_LIMIT && q <= FALLBACK_LIMIT
    ensures Candidate(a.ext, a.name, p) != Candidate(b.ext, b.name, q)
  {
    hide Decimal;
    if p > 0 && q > 0 && Candidate(a.ext, a.name, p) == Candidate(b.ext, b.name, q) {
      SameTail(a.ext, a.name, b.name, p, q);
      if p > 1 && q > 1 {
        NumberHasNoUnderscore(p);
        NumberHasNoUnderscore(q);
        NumberedApart(a.name, Decimal(p), b.name, Decimal(q));
      }
    }
  }

  /** What follows the extension's name in a candidate. */
  function Tail(name: string, p: nat): string {
    if p <= 1 then name else name + "_" + Decimal(p)
  }

  lemma {:induction false} SameTail(ext: string, a: string, b: string, p: nat, q: nat)
    requires p > 0 && q > 0 && Candidate(ext, a, p) == Candidate(ext, b, q)
    ensures Tail(a, p) == Tail(b, q)
  {
    hide Decimal;
    CandidateTail(ext, a, p);
    CandidateTail(ext, b, q);
    CutFront(ext + "_", Tail(a, p), Tail(b, q));
  }

  lemma {:induction false} CandidateTail(ext: string, name: string, p: nat)
    requires p > 0
    ensures Candidate(ext, name, p) == ext + "_" + Tail(name, p)
  {
    hide Decimal;
    if p > 1 {
      assert ext + "_" + name + "_" + Decimal(p) == ext + "_" + (name + "_" + Decimal(p));
    }
  }

  /** A table that holds the first `q` candidates of a function, and perhaps one
      name more. */
  function TakenKeys(s: Spec, q: nat, more: set<string>): set<Key> {
    (set k: nat | k < q :: Key(Candidate(s.ext, s.name, k), s.narg)) + set name | name in more :: Key(name, s.narg)
  }

  function TakenTable(s: Spec, q: nat, more: set<string>): Table {
    Table(map k | k in TakenKeys(s, q, more) :: 0, map[])
  }

  lemma {:induction false} TakenExists(s: Spec, q: nat, more: set<string>, name: string)
    ensures FunctionExists(TakenTable(s, q, more), name, s.narg) <==>
            name in more || exists k: nat | k < q :: name == Candidate(s.ext, s.name, k)
  {
    hide Candidate;
    var t := TakenTable(s, q, more);
    if k: nat :| k < q && name == Candidate(s.ext, s.name, k) {
      assert Key(Candidate(s.ext, s.name, k), s.narg) in t.app;
    }
    if name in more {
      assert Key(name, s.narg) in t.app;
    }
  }

  lemma {:induction false} TakenIsFolded(s: Spec, q: nat, more: set<string>)
    requires FoldedSpec(s) && forall name <- more :: Fold(name) == name
    ensures IsFolded(TakenTable(s, q, more))
  {
    hide Fold, Candidate;
    forall k: nat | k < q
      ensures Fold(Candidate(s.ext, s.name, k)) == Candidate(s.ext, s.name, k)
    {
      FoldedCandidate(s.ext, s.name, k);
    }
  }

  lemma {:induction false} ChoiceInTaken(s: Spec, q: nat, more: set<string>)
    requires q <= FALLBACK_LIMIT && Candidate(s.ext, s.name, q) !in more
    ensures Chooses(TakenTable(s, q, more), s, q)
  {
    hide Candidate, FunctionExists;
    var t := TakenTable(s, q, more);
    forall k: nat | k < q
      ensures FunctionExists(t, Candidate(s.ext, s.name, k), s.narg)
      ensures Candidate(s.ext, s.name, k) != Candidate(s.ext, s.name, q)
    {
      TakenExists(s, q, more, Candidate(s.ext, s.name, k));
      CandidatesDiffer(s.ext, s.name, k, q);
    }
    TakenExists(s, q, more, Candidate(s.ext, s.name, q));
  }

  /** A function whose name another shadows meets it in some table. */
  lemma {:induction false} ShadowsMeet(a: Spec, b: Spec) returns (table: Table)
    requires FoldedSpec(a) && FoldedSpec(b) && a.ext == b.ext && a.narg == b.narg && Shadows(a, b)
    ensures IsFolded(table) && Meet(table, a, b) && Meet(table, b, a)
  {
    hide Fold, FunctionExists, TakenTable, Decimal, Chooses;
    if q: nat :| q <= FALLBACK_LIMIT && a.name == Candidate(b.ext, b.name, q) {
      table := TakenTable(b, q, {});
      TakenIsFolded(b, q, {});
      ChoiceInTaken(b, q, {});
      BareIsChosen(a, b, q);
      assert Candidate(a.ext, a.name, 0) == Candidate(b.ext, b.name, q);
    } else {
      assert a.name != b.name by { assert Candidate(b.ext, b.name, 0) == b.name; }
      var q: nat :| 2 <= q <= FALLBACK_LIMIT && a.name == b.name + "_" + Decimal(q);
      table := TakenTable(b, q, {a.name});
      CandidateTail(b.ext, b.name, q);
      assert Candidate(b.ext, b.name, q) == a.ext + "_" + a.name == Candidate(a.ext, a.name, 1);
      assert |Candidate(b.ext, b.name, q)| > |a.name|;
      TakenIsFolded(b, q, {a.name});
      ChoiceInTaken(b, q, {a.name});
      PrefixedIsChosen(a, b, q);
    }
  }

  lemma {:induction false} BareIsChosen(a: Spec, b: Spec, q: nat)
    requires a.narg == b.narg && a.name == Candidate(b.ext, b.name, q)
    ensures Chooses(TakenTable(b, q, {}), a, 0)
  {
    hide FunctionExists, TakenTable;
    assert Candidate(a.ext, a.name, 0) == a.name;
    hide Candidate;
    TakenExists(b, q, {}, a.name);
    forall k: nat | k < q
      ensures Candidate(b.ext, b.name, k) != a.name
    {
      CandidatesDiffer(b.ext, b.name, k, q);
    }
  }

  lemma {:induction false} PrefixedIsChosen(a: Spec, b: Spec, q: nat)
    requires a.narg == b.narg && Candidate(a.ext, a.name, 1) == Candidate(b.ext, b.name, q)
    ensures Chooses(TakenTable(b, q, {a.name}), a, 1)
  {
    hide FunctionExists, TakenTable;
    var more := {a.name};
    assert Candidate(a.ext, a.name, 0) == a.name && |Candidate(a.ext, a.name, 1)| > |a.name|;
    hide Candidate;
    TakenExists(b, q, more, a.name);
    TakenExists(b, q, more, Candidate(a.ext, a.name, 1));
    forall k: nat | k < q
      ensures Candidate(b.ext, b.name, k) != Candidate(a.ext, a.name, 1)
    {
      CandidatesDiffer(b.ext, b.name, k, q);
    }
  }

  /** A manifest's functions are all held whatever table they are loaded into
      exactly when no two of them clash, which can be read off the manifest. */
  lemma {:induction false} ManifestIsSafeIff(ext: string, specs: seq<Spec>)
    requires forall s <- specs :: FoldedSpec(s) && s.ext == ext
    requires forall i, j :: 0 <= i < j < |specs| ==> specs[i].fn != specs[j].fn
    ensures (forall table: Table | IsFolded(table) :: AllHeld(table, specs)) <==>
            forall i, j :: 0 <= i < j < |specs| ==> !Clash(specs[i], specs[j])
  {
    hide FoldedSpec, AllHeld, IsFolded, Shadows, Meet, Candidate, Chooses;
    if i, j :| 0 <= i < j < |specs| && Clash(specs[i], specs[j]) {
      var a, b := specs[i], specs[j];
      assert a in specs && b in specs;
      var table;
      if Shadows(a, b) {
        table := ShadowsMeet(a, b);
      } else {
        table := ShadowsMeet(b, a);
      }
      BatchHeldIff(table, specs);
      assert !AllHeld(table, specs);
    } else {
      forall table: Table | IsFolded(table)
        ensures AllHeld(table, specs)
      {
        forall i, j | 0 <= i < j < |specs|
          ensures !Meet(table, specs[i], specs[j])
        {
          assert specs[i] in specs && specs[j] in specs;
          NoMeeting(table, specs[i], specs[j]);
        }
        BatchHeldIff(table, specs);
      }
    }
  }

  lemma {:induction false} NoMeeting(table: Table, a: Spec, b: Spec)
    requires a.ext == b.ext && !Clash(a, b)
    ensures !Meet(table, a, b)
  {
    hide Candidate, Shadows, FunctionExists;
    if a.narg == b.narg {
      forall p: nat, q: nat | Chooses(table, a, p) && Chooses(table, b, q)
        ensures Candidate(a.ext, a.name, p) != Candidate(b.ext, b.name, q)
      {
        CandidatesApart(a, b, p, q);
      }
    }
  }

  /** With `f` taken, a manifest of `f` and `x_f` for extension `x` gives both
      the name `x_f`, and the first is lost. */
  lemma {:induction false} BatchMayClashWithItself()
    ensures var table, specs := Table(map[Key("f", 1) := 0], map[]), [Spec("x", "f", 1, 1), Spec("x", "x_f", 1, 2)];
            && Names(table, specs) == ["x_f", "x_f"]
            && 1 !in LoadBatch(table, specs).app.Values
  {
    var table, specs := Table(map[Key("f", 1) := 0], map[]), [Spec("x", "f", 1, 1), Spec("x", "x_f", 1, 2)];
    assert Candidate("x", "f", 1) == "x_f";
    assert ResolvedFor(table, specs[0]) == FirstFree(table, "x", "f", 1, 1) == Some("x_f");
    assert ResolvedFor(table, specs[1]) == Some("x_f");
    var names := Names(table, specs);
    assert names == ["x_f", "x_f"];
    assert Fold("x_f") == "x_f";
    assert names[..1][..0] == [] && specs[..1][..0] == [];
    assert RegisterAll(table, names[..1], specs[..1]) == Register(table, "x_f", 1, 1);
  }
}
