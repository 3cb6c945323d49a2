/** The edit-distance function that the extension generator emits
    (scripts/build-extension.py:823-838): a dynamic-programming table over two
    strings of UTF-16 code units, with a shortcut when two characters agree.

    The reference is the set of all edit scripts.  `Distance` is the recurrence
    behind the table; `DistanceIsMinimal` says that it is the cheapest script's
    cost, and the metric laws follow from operations on scripts. */
module EditDistance {
  import opened Text

  type CodeUnit = u: int | 0 <= u < 0x1_0000

  datatype Result<+T> = Ok(value: T) | Throw(message: string)

  /** One step of an edit script. */
  datatype Edit =
    | Keep(c: CodeUnit)
    | Insert(c: CodeUnit)
    | Delete(c: CodeUnit)
    | Substitute(before: CodeUnit, after: CodeUnit)

  /** A script; `last` is the step done last, at the right end of the string. */
  datatype Script = Done | Then(rest: Script, last: Edit)

  function Init(s: seq<CodeUnit>): seq<CodeUnit>
    requires s != []
  {
    s[..|s| - 1]
  }

  function Last(s: seq<CodeUnit>): CodeUnit
    requires s != []
  {
    s[|s| - 1]
  }

  function Consumed(e: Edit): seq<CodeUnit> {
    match e
    case Keep(c) => [c]
    case Insert(_) => []
    case Delete(c) => [c]
    case Substitute(before, _) => [before]
  }

  function Produced(e: Edit): seq<CodeUnit> {
    match e
    case Keep(c) => [c]
    case Insert(c) => [c]
    case Delete(_) => []
    case Substitute(_, after) => [after]
  }

  /** The string a script starts from. */
  function Source(s: Script): seq<CodeUnit> {
    match s
    case Done => []
    case Then(rest, e) => Source(rest) + Consumed(e)
  }

  /** The string a script ends with. */
  function Target(s: Script): seq<CodeUnit> {
    match s
    case Done => []
    case Then(rest, e) => Target(rest) + Produced(e)
  }

  function Price(e: Edit): nat {
    if e.Keep? then 0 else 1
  }

  /** The number of insertions, deletions and substitutions. */
  function Cost(s: Script): nat {
    match s
    case Done => 0
    case Then(rest, e) => Cost(rest) + Price(e)
  }

  ghost predicate Rewrites(s: Script, a: seq<CodeUnit>, b: seq<CodeUnit>) {
    Source(s) == a && Target(s) == b
  }

  /** `d` is the least cost of a script from `a` to `b`. */
  ghost predicate IsLeastCost(d: nat, a: seq<CodeUnit>, b: seq<CodeUnit>) {
    && (exists s :: Rewrites(s, a, b) && Cost(s) == d)
    && (forall s :: Rewrites(s, a, b) ==> d <= Cost(s))
  }

  function Min3(x: nat, y: nat, z: nat): nat {
    if x <= y && x <= z then x else if y <= z then y else z
  }

  /** The value the table holds for the prefixes `a` and `b`. */
  function Distance(a: seq<CodeUnit>, b: seq<CodeUnit>): nat
    decreases |a| + |b|
  {
    if a == [] then |b|
    else if b == [] then |a|
    else if Last(a) == Last(b) then Distance(Init(a), Init(b))
    else 1 + Min3(Distance(Init(a), b), Distance(a, Init(b)), Distance(Init(a), Init(b)))
  }

  lemma {:induction false} DistanceCommutes(a: seq<CodeUnit>, b: seq<CodeUnit>)
    ensures Distance(a, b) == Distance(b, a)
    decreases |a| + |b|
  {
    if a != [] && b != [] {
      DistanceCommutes(Init(a), Init(b));
      if Last(a) != Last(b) {
        DistanceCommutes(Init(a), b);
        DistanceCommutes(a, Init(b));
      }
    }
  }

  /** Dropping the last character moves the distance by at most one. */
  lemma {:induction false} DistanceIsLipschitz(a: seq<CodeUnit>, b: seq<CodeUnit>)
    requires a != []
    ensures Distance(Init(a), b) <= Distance(a, b) + 1
    ensures Distance(a, b) <= Distance(Init(a), b) + 1
    decreases |a| + |b|
  {
    if b != [] {
      DistanceCommutes(Init(a), b);
      DistanceCommutes(Init(a), Init(b));
      DistanceIsLipschitz(b, Init(a));
      if Last(a) != Last(b) {
        DistanceIsLipschitz(a, Init(b));
      }
    }
  }

  lemma {:induction false} Append(a: seq<CodeUnit>, c: CodeUnit)
    ensures a + [c] != [] && Init(a + [c]) == a && Last(a + [c]) == c
  {
  }

  /** One more step moves the distance by at most its price. */
  lemma {:induction false} StepMovesDistance(a: seq<CodeUnit>, b: seq<CodeUnit>, e: Edit)
    ensures Distance(a + Consumed(e), b + Produced(e)) <= Distance(a, b) + Price(e)
  {
    match e
    case Keep(c) =>
      Append(a, c);
      Append(b, c);
    case Insert(c) =>
      assert a + [] == a;
      Append(b, c);
      DistanceIsLipschitz(b + [c], a);
      DistanceCommutes(a, b);
      DistanceCommutes(a, b + [c]);
    case Delete(c) =>
      assert b + [] == b;
      Append(a, c);
      DistanceIsLipschitz(a + [c], b);
    case Substitute(c, d) =>
      Append(a, c);
      Append(b, d);
  }

  /** No script beats the table. */
  lemma {:induction false} DistanceIsLowerBound(s: Script)
    ensures Distance(Source(s), Target(s)) <= Cost(s)
  {
    if s.Then? {
      DistanceIsLowerBound(s.rest);
      StepMovesDistance(Source(s.rest), Target(s.rest), s.last);
    }
  }

  /** A cheapest script, read off the table. */
  function Align(a: seq<CodeUnit>, b: seq<CodeUnit>): Script
    decreases |a| + |b|
  {
    if a == [] && b == [] then Done
    else if a == [] then Then(Align(a, Init(b)), Insert(Last(b)))
    else if b == [] then Then(Align(Init(a), b), Delete(Last(a)))
    else if Last(a) == Last(b) then Then(Align(Init(a), Init(b)), Keep(Last(a)))
    else
      var del, ins, sub := Distance(Init(a), b), Distance(a, Init(b)), Distance(Init(a), Init(b));
      if del <= ins && del <= sub then Then(Align(Init(a), b), Delete(Last(a)))
      else if ins <= sub then Then(Align(a, Init(b)), Insert(Last(b)))
      else Then(Align(Init(a), Init(b)), Substitute(Last(a), Last(b)))
  }

  lemma {:induction false} AlignAttains(a: seq<CodeUnit>, b: seq<CodeUnit>)
    ensures Rewrites(Align(a, b), a, b) && Cost(Align(a, b)) == Distance(a, b)
    decreases |a| + |b|
  {
    assert a != [] ==> a == Init(a) + [Last(a)];
    assert b != [] ==> b == Init(b) + [Last(b)];
    match Align(a, b)
    case Done =>
    case Then(_, Keep(_)) => AlignAttains(Init(a), Init(b));
    case Then(_, Insert(_)) => AlignAttains(a, Init(b));
    case Then(_, Delete(_)) => AlignAttains(Init(a), b);
    case Then(_, Substitute(_, _)) => AlignAttains(Init(a), Init(b));
  }

  /** The table's value is the least number of insertions, deletions and
      substitutions over all scripts, and nothing else is. */
  lemma {:induction false} DistanceIsMinimal(a: seq<CodeUnit>, b: seq<CodeUnit>, d: nat)
    ensures IsLeastCost(d, a, b) <==> d == Distance(a, b)
  {
    AlignAttains(a, b);
    forall s | Rewrites(s, a, b)
      ensures Distance(a, b) <= Cost(s)
    {
      DistanceIsLowerBound(s);
    }
  }

  /** What step `e` followed by step `f` does, when one produces the character
      that the other consumes. */
  function Fuse(s: Script, e: Edit, f: Edit): Script
    requires !e.Delete? && !f.Insert?
  {
    match f
    case Keep(_) => Then(s, e)
    case Delete(_) => if e.Insert? then s else Then(s, Delete(Consumed(e)[0]))
    case Substitute(_, d) => if e.Insert? then Then(s, Insert(d)) else Then(s, Substitute(Consumed(e)[0], d))
  }

  /** The last character in between comes from one step and goes to the other. */
  lemma {:induction false} MeetingPoint(s: Script, t: Script)
    requires Target(s) == Source(t) && s.Then? && t.Then?
    requires !s.last.Delete? && !t.last.Insert?
    ensures Target(s.rest) == Source(t.rest) && Produced(s.last) == Consumed(t.last)
  {
    var m := Target(s);
    assert Init(m) == Target(s.rest) && Init(m) == Source(t.rest);
    assert [Last(m)] == Produced(s.last) && [Last(m)] == Consumed(t.last);
  }

  /** Scripts compose: what the first one produces the second one consumes. */
  function Compose(s: Script, t: Script): Script
    requires Target(s) == Source(t)
    decreases s, t
  {
    if t.Then? && t.last.Insert? then Then(Compose(s, t.rest), t.last)
    else if s.Then? && s.last.Delete? then Then(Compose(s.rest, t), s.last)
    else if s.Done? || t.Done? then Done
    else
      MeetingPoint(s, t);
      Fuse(Compose(s.rest, t.rest), s.last, t.last)
  }

  lemma {:induction false} ComposeRewrites(s: Script, t: Script)
    requires Target(s) == Source(t)
    ensures Rewrites(Compose(s, t), Source(s), Target(t))
    ensures Cost(Compose(s, t)) <= Cost(s) + Cost(t)
    decreases s, t
  {
    if t.Then? && t.last.Insert? {
      ComposeRewrites(s, t.rest);
    } else if s.Then? && s.last.Delete? {
      ComposeRewrites(s.rest, t);
    } else if s.Then? && t.Then? {
      MeetingPoint(s, t);
      ComposeRewrites(s.rest, t.rest);
    }
  }

  lemma {:induction false} TriangleInequality(a: seq<CodeUnit>, b: seq<CodeUnit>, c: seq<CodeUnit>)
    ensures Distance(a, c) <= Distance(a, b) + Distance(b, c)
  {
    AlignAttains(a, b);
    AlignAttains(b, c);
    ComposeRewrites(Align(a, b), Align(b, c));
    DistanceIsLowerBound(Compose(Align(a, b), Align(b, c)));
  }

  lemma {:induction false} FreeScriptKeepsAll(s: Script)
    requires Cost(s) == 0
    ensures Source(s) == Target(s)
  {
    if s.Then? {
      FreeScriptKeepsAll(s.rest);
    }
  }

  lemma {:induction false} KeepAll(a: seq<CodeUnit>)
    ensures Distance(a, a) == 0
  {
    if a != [] {
      KeepAll(Init(a));
    }
  }

  /** Distance zero means equal strings, and equal strings only. */
  lemma {:induction false} ZeroIffEqual(a: seq<CodeUnit>, b: seq<CodeUnit>)
    ensures Distance(a, b) == 0 <==> a == b
  {
    AlignAttains(a, b);
    KeepAll(a);
    if Distance(a, b) == 0 {
      FreeScriptKeepsAll(Align(a, b));
    }
  }

  lemma {:induction false} TableCell(a: seq<CodeUnit>, b: seq<CodeUnit>, i: nat, j: nat)
    requires 0 < i <= |a| && 0 < j <= |b|
    ensures Distance(a[..i], b[..j]) ==
            if a[i - 1] == b[j - 1] then Distance(a[..i - 1], b[..j - 1])
            else 1 + Min3(Distance(a[..i - 1], b[..j]), Distance(a[..i], b[..j - 1]), Distance(a[..i - 1], b[..j - 1]))
  {
    assert Init(a[..i]) == a[..i - 1] && Init(b[..j]) == b[..j - 1];
  }

  /** The emitted body: arity check, SQL NULL, then the table. */
  method Levenshtein(args: seq<Option<seq<CodeUnit>>>) returns (r: Result<Option<nat>>)
    ensures |args| < 2 <==> r.Throw?
    ensures |args| >= 2 ==>
              match (args[0], args[1])
              case (Some(a), Some(b)) => r.value.Some? && IsLeastCost(r.value.value, a, b)
              case _ => r.value == None
  {
    if |args| < 2 {
      return Throw("edit_distance requires 2 arguments");
    }
    if args[0].None? || args[1].None? {
      return Ok(None);
    }
    var a, b := args[0].value, args[1].value;
    var m, n := |a|, |b|;
    var dp := new nat[m + 1, n + 1]((i: nat, j: nat) => if i == 0 then j else if j == 0 then i else 0);
    for i := 1 to m + 1
      invariant forall p, q :: 0 <= p <= m && 0 <= q <= n && (p < i || q == 0) ==> dp[p, q] == Distance(a[..p], b[..q])
    {
      for j := 1 to n + 1
        invariant forall p, q :: 0 <= p <= m && 0 <= q <= n && (p < i || q == 0 || (p == i && q < j)) ==>
                                   dp[p, q] == Distance(a[..p], b[..q])
      {
        TableCell(a, b, i, j);
        dp[i, j] :=
          if a[i - 1] == b[j - 1] then dp[i - 1, j - 1]
          else 1 + Min3(dp[i - 1, j], dp[i, j - 1], dp[i - 1, j - 1]);
      }
    }
    assert a[..m] == a && b[..n] == b;
    DistanceIsMinimal(a, b, dp[m, n]);
    return Ok(Some(dp[m, n]));
  }
}
