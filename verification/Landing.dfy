/** The landing page compiled to a SQL concatenation
    (extensions-site/build.py:100-103 and 468-515).

    The page is split at its placeholders into quoted literals and subqueries.
    `EvalSelect` reads the produced SQL text back: it unquotes the literals,
    replaces the subqueries by the two counts and concatenates. */
module Landing {
  import opened Text

  const STYLE := "{{STYLE}}"
  const DATA_JSON := "{{DATA_JSON}}"
  const EXT_COUNT := "{{EXT_COUNT}}"
  const FN_COUNT := "{{FN_COUNT}}"
  const TOTAL_COUNT := "{{TOTAL_COUNT}}"

  const EXT_QUERY := "(" + "SELECT count FROM site_meta WHERE key='" + "extension_count')"
  const FN_QUERY := "(" + "SELECT count FROM site_meta WHERE key='" + "function_count')"
  const GLUE := " || "
  const CTYPE := "text/html; charset=utf-8"
  const SELECT := "SELECT "
  const ALIASES := " AS " + "body, 'text/html; charset=utf-8' AS ctype"

  /** `str.replace`: every occurrence, left to right, none overlapping. */
  function Replace(s: string, pat: string, fill: string): string
    requires pat != ""
    decreases |s|
  {
    if s == "" then ""
    else if OccursAt(s, pat, 0) then fill + Replace(s[|pat|..], pat, fill)
    else [s[0]] + Replace(s[1..], pat, fill)
  }

  function SqlStr(s: string): string {
    "'" + Replace(s, "'", "''") + "'"
  }

  /** The page after the static placeholders. */
  function StaticPage(template: string, style: string, dataJson: string): string {
    Replace(Replace(template, STYLE, style), DATA_JSON, dataJson)
  }

  /** The literals and subqueries, in page order. */
  function Parts(page: string): (parts: seq<string>)
    ensures parts != []
    decreases |page|
  {
    var nextExt, nextFn := IndexOf(page, EXT_COUNT, 0), IndexOf(page, FN_COUNT, 0);
    if nextExt < 0 && nextFn < 0 then [SqlStr(page)]
    else if nextFn < 0 || 0 <= nextExt <= nextFn then
      [SqlStr(page[..nextExt]), EXT_QUERY] + Parts(page[nextExt + |EXT_COUNT|..])
    else
      [SqlStr(page[..nextFn]), FN_QUERY] + Parts(page[nextFn + |FN_COUNT|..])
  }

  function Handler(template: string, style: string, dataJson: string): string {
    SELECT + Join(Parts(Replace(StaticPage(template, style, dataJson), TOTAL_COUNT, EXT_COUNT)), GLUE) + ALIASES
  }

  method LandingHandler(template: string, style: string, dataJson: string) returns (sql: string)
    ensures sql == Handler(template, style, dataJson)
    ensures forall ext, fn ::
              EvalSelect(sql, ext, fn) ==
              Some((Substituted(StaticPage(template, style, dataJson), Decimal(ext), Decimal(fn)), CTYPE))
    ensures forall pieces, ext, fn ::
              template == Template(pieces) && AllFree(pieces) && Free(style) && Free(dataJson) ==>
              EvalSelect(sql, ext, fn) == Some((Page(pieces, style, dataJson, ext, fn), "text/html; charset=utf-8"))
  {
    hide Template, AllFree, Free, Page;
    hide Replace, EvalSelect, Substituted, StaticPage, Decimal, Parts, Join;
    var page := Replace(StaticPage(template, style, dataJson), TOTAL_COUNT, EXT_COUNT);
    var parts := SplitPage(page);
    sql := SELECT + Join(parts, GLUE) + ALIASES;
    forall ext, fn
      ensures EvalSelect(sql, ext, fn) ==
              Some((Substituted(StaticPage(template, style, dataJson), Decimal(ext), Decimal(fn)), CTYPE))
    {
      HandlerMeaning(template, style, dataJson, ext, fn);
    }
    forall pieces, ext, fn | template == Template(pieces) && AllFree(pieces) && Free(style) && Free(dataJson)
      ensures EvalSelect(sql, ext, fn) == Some((Page(pieces, style, dataJson, ext, fn), "text/html; charset=utf-8"))
    {
      PiecesMeaning(pieces, style, dataJson, ext, fn);
    }
  }

  /** The split loop: what is left of the page shrinks at every placeholder. */
  method SplitPage(page: string) returns (parts: seq<string>)
    ensures parts == Parts(page)
  {
    hide IndexOf, SqlStr, Parts;
    parts := [];
    var cursor := page;
    while true
      invariant parts + Parts(cursor) == Parts(page)
      decreases |cursor|
    {
      PartsStep(cursor);
      var nextExt := IndexOf(cursor, EXT_COUNT, 0);
      var nextFn := IndexOf(cursor, FN_COUNT, 0);
      if nextExt < 0 && nextFn < 0 {
        parts := parts + [SqlStr(cursor)];
        break;
      }
      if nextFn < 0 || 0 <= nextExt <= nextFn {
        Further(parts, [SqlStr(cursor[..nextExt]), EXT_QUERY], Parts(cursor[nextExt + |EXT_COUNT|..]));
        parts := parts + [SqlStr(cursor[..nextExt]), EXT_QUERY];
        cursor := cursor[nextExt + |EXT_COUNT|..];
      } else {
        Further(parts, [SqlStr(cursor[..nextFn]), FN_QUERY], Parts(cursor[nextFn + |FN_COUNT|..]));
        parts := parts + [SqlStr(cursor[..nextFn]), FN_QUERY];
        cursor := cursor[nextFn + |FN_COUNT|..];
      }
    }
  }

  lemma {:induction false} Further(a: seq<string>, b: seq<string>, c: seq<string>)
    ensures a + (b + c) == a + b + c
  {
  }

  lemma {:induction false} PartsStep(page: string)
    ensures var e, f := IndexOf(page, EXT_COUNT, 0), IndexOf(page, FN_COUNT, 0);
            Parts(page) ==
            if e < 0 && f < 0 then [SqlStr(page)]
            else if f < 0 || 0 <= e <= f then [SqlStr(page[..e]), EXT_QUERY] + Parts(page[e + |EXT_COUNT|..])
            else [SqlStr(page[..f]), FN_QUERY] + Parts(page[f + |FN_COUNT|..])
  {
    hide IndexOf, SqlStr;
  }

  // ----- what the SQL text means -----

  /** The value of a string literal whose opening quote is already read, and
      the text after its closing quote. */
  function ReadLiteral(s: string): Option<(string, string)>
    decreases |s|
  {
    if s == "" then None
    else if s[0] != '\'' then
      var (value, rest) :- ReadLiteral(s[1..]);
      Some(([s[0]] + value, rest))
    else if |s| > 1 && s[1] == '\'' then
      var (value, rest) :- ReadLiteral(s[2..]);
      Some(("'" + value, rest))
    else Some(("", s[1..]))
  }

  /** One operand: a literal or one of the two count subqueries. */
  function ReadOperand(s: string, ext: nat, fn: nat): (r: Option<(string, string)>)
  {
    if s != "" && s[0] == '\'' then ReadLiteral(s[1..])
    else if OccursAt(s, EXT_QUERY, 0) then Some((Decimal(ext), s[|EXT_QUERY|..]))
    else if OccursAt(s, FN_QUERY, 0) then Some((Decimal(fn), s[|FN_QUERY|..]))
    else None
  }

  /** A concatenation, and the text after it. */
  function ReadConcat(s: string, ext: nat, fn: nat): Option<(string, string)>
    decreases |s|
  {
    var (value, rest) :- ReadOperand(s, ext, fn);
    if |rest| < |s| && OccursAt(rest, GLUE, 0) then
      var (value', rest') :- ReadConcat(rest[|GLUE|..], ext, fn);
      Some((value + value', rest'))
    else Some((value, rest))
  }

  /** The row `SELECT ... AS body, '...' AS ctype` returns. */
  function EvalSelect(sql: string, ext: nat, fn: nat): Option<(string, string)> {
    if !OccursAt(sql, SELECT, 0) then None
    else
      var (body, rest) :- ReadConcat(sql[|SELECT|..], ext, fn);
      if rest == ALIASES then Some((body, CTYPE)) else None
  }

  // ----- the reference: plain substitution -----

  /** Every total or extension placeholder becomes `ext`, every function
      placeholder becomes `fn`. */
  function Substituted(page: string, ext: string, fn: string): string {
    Replace(Replace(Replace(page, TOTAL_COUNT, ext), EXT_COUNT, ext), FN_COUNT, fn)
  }

  // ----- placeholders -----

  predicate IsNameChar(c: char) {
    'A' <= c <= 'Z' || c == '_'
  }

  predicate IsPlaceholder(p: string) {
    && |p| >= 5 && p[0] == '{' && p[1] == '{' && p[|p| - 2] == '}' && p[|p| - 1] == '}'
    && forall i :: 2 <= i < |p| - 2 ==> IsNameChar(p[i])
  }

  predicate IsCount(r: string) {
    r != "" && AllDigits(r)
  }

  lemma {:induction false} PlaceholdersAre()
    ensures IsPlaceholder(EXT_COUNT) && IsPlaceholder(FN_COUNT) && IsPlaceholder(TOTAL_COUNT)
    ensures EXT_COUNT != FN_COUNT && EXT_COUNT != TOTAL_COUNT && FN_COUNT != TOTAL_COUNT
  {
    assert EXT_COUNT[2] == 'E' && FN_COUNT[2] == 'F' && TOTAL_COUNT[2] == 'T';
  }

  /** Two different placeholders never stand at the same place. */
  lemma {:induction false} PlaceholdersExclude(s: string, p: string, q: string)
    requires IsPlaceholder(p) && IsPlaceholder(q) && p != q && OccursAt(s, p, 0)
    ensures !OccursAt(s, q, 0)
  {
    if |p| < |q| {
      assert p[|p| - 2] == s[|p| - 2] == '}';
      Mismatch(s, q, 0, |p| - 2);
    } else if |q| < |p| {
      assert p[|q| - 2] == s[|q| - 2];
      Mismatch(s, q, 0, |q| - 2);
    } else {
      var k :| 0 <= k < |p| && p[k] != q[k];
      assert p[k] == s[k];
      Mismatch(s, q, 0, k);
    }
  }

  /** A placeholder cannot start inside another one. */
  lemma {:induction false} PlaceholdersDoNotNest(s: string, p: string, q: string, k: nat)
    requires IsPlaceholder(p) && IsPlaceholder(q) && OccursAt(s, p, 0) && 0 < k < |p|
    ensures !OccursAt(s, q, k)
  {
    assert p[k] == s[k];
    if k == 1 {
      assert p[2] == s[2];
      Mismatch(s, q, 1, 1);
    } else {
      Mismatch(s, q, k, 0);
    }
  }

  lemma {:induction false} ReplaceSkips(s: string, pat: string, fill: string, n: nat)
    requires pat != "" && n <= |s| && forall k: nat :: k < n ==> !OccursAt(s, pat, k)
    ensures Replace(s, pat, fill) == s[..n] + Replace(s[n..], pat, fill)
    decreases n
  {
    if n > 0 {
      hide OccursAt;
      var t := s[1..];
      assert s == [s[0]] + t;
      forall k: nat | k < n - 1
        ensures !OccursAt(t, pat, k)
      {
        OccursInSuffix([s[0]], t, pat, k + 1);
      }
      ReplaceSkips(t, pat, fill, n - 1);
      assert t[n - 1..] == s[n..] && [s[0]] + t[..n - 1] == s[..n];
    }
  }

  /** Text without an opening brace is left alone. */
  lemma {:induction false} ReplaceSkipsText(x: string, y: string, p: string, fill: string)
    requires IsPlaceholder(p) && '{' !in x
    ensures Replace(x + y, p, fill) == x + Replace(y, p, fill)
  {
    var s := x + y;
    forall k: nat | k < |x|
      ensures !OccursAt(s, p, k)
    {
      assert s[k] == x[k] && x[k] in x;
      Mismatch(s, p, k, 0);
    }
    ReplaceSkips(s, p, fill, |x|);
    assert s[..|x|] == x && s[|x|..] == y;
  }

  /** Another placeholder is left alone. */
  lemma {:induction false} ReplaceSkipsOther(s: string, p: string, q: string, fill: string)
    requires IsPlaceholder(p) && IsPlaceholder(q) && p != q && OccursAt(s, q, 0)
    ensures Replace(s, p, fill) == q + Replace(s[|q|..], p, fill)
  {
    PlaceholdersExclude(s, q, p);
    forall k: nat | 0 < k < |q|
      ensures !OccursAt(s, p, k)
    {
      PlaceholdersDoNotNest(s, q, p, k);
    }
    ReplaceSkips(s, p, fill, |q|);
    assert s[..|q|] == q;
  }

  /** What is put in place of a placeholder: a number or another placeholder. */
  predicate IsFiller(fill: string) {
    IsCount(fill) || IsPlaceholder(fill)
  }

  /** The tail of a placeholder, from position `k` on. */
  predicate IsTail(w: string, q: string, k: nat) {
    IsPlaceholder(q) && 0 < k <= |q| && w == q[k..]
  }

  /** A filler does not look like the tail of a placeholder. */
  lemma {:induction false} FillerIsNoTail(fill: string, rest: string, w: string, q: string, k: nat)
    requires IsFiller(fill) && IsTail(w, q, k) && k < |q|
    ensures !OccursAt(fill + rest, w, 0)
  {
    var s := fill + rest;
    assert s[0] == fill[0] && w[0] == q[k];
    if IsCount(fill) {
      assert fill[0] in fill;
      Mismatch(s, w, 0, 0);
    } else if k == 1 {
      assert s[1] == fill[1] && w[1] == q[2];
      Mismatch(s, w, 0, 1);
    } else {
      Mismatch(s, w, 0, 0);
    }
  }

  /** Replacing cannot create the tail of a placeholder. */
  lemma {:induction false} TailsAreOld(s: string, p: string, fill: string, w: string, q: string, k: nat)
    requires IsPlaceholder(p) && IsFiller(fill) && IsTail(w, q, k)
    requires OccursAt(Replace(s, p, fill), w, 0)
    ensures OccursAt(s, w, 0)
    decreases |s|
  {
    if w != "" {
      if OccursAt(s, p, 0) {
        FillerIsNoTail(fill, Replace(s[|p|..], p, fill), w, q, k);
      } else {
        var r := Replace(s, p, fill);
        OccursHeadTail(r, w);
        OccursHeadTail(s, w);
        assert r[1..] == Replace(s[1..], p, fill);
        TailsAreOld(s[1..], p, fill, w[1..], q, k + 1);
      }
    }
  }

  /** Replacing behind a character cannot complete a placeholder there. */
  lemma {:induction false} NoNewPlaceholder(s: string, p: string, fill: string, q: string)
    requires IsPlaceholder(p) && IsPlaceholder(q) && IsFiller(fill)
    requires s != "" && !OccursAt(s, p, 0) && !OccursAt(s, q, 0)
    ensures !OccursAt(Replace(s, p, fill), q, 0)
  {
    hide OccursAt;
    var r := Replace(s, p, fill);
    assert r[1..] == Replace(s[1..], p, fill);
    OccursHeadTail(s, q);
    OccursHeadTail(r, q);
    if OccursAt(r[1..], q[1..], 0) {
      TailsAreOld(s[1..], p, fill, q[1..], q, 1);
    }
  }

  // ----- simultaneous substitution -----

  /** The page read once, with every placeholder replaced where it stands. */
  function Rendered(page: string, ext: string, fn: string): string
    decreases |page|
  {
    if page == "" then ""
    else if OccursAt(page, TOTAL_COUNT, 0) then ext + Rendered(page[|TOTAL_COUNT|..], ext, fn)
    else if OccursAt(page, EXT_COUNT, 0) then ext + Rendered(page[|EXT_COUNT|..], ext, fn)
    else if OccursAt(page, FN_COUNT, 0) then fn + Rendered(page[|FN_COUNT|..], ext, fn)
    else [page[0]] + Rendered(page[1..], ext, fn)
  }

  lemma {:induction false} CountHasNoBrace(r: string)
    requires IsCount(r)
    ensures '{' !in r
  {
  }

  lemma {:induction false} ReplaceHit(s: string, pat: string, fill: string)
    requires pat != "" && OccursAt(s, pat, 0)
    ensures Replace(s, pat, fill) == fill + Replace(s[|pat|..], pat, fill)
  {
  }

  lemma {:induction false} ReplaceMiss(s: string, pat: string, fill: string)
    requires pat != "" && s != "" && !OccursAt(s, pat, 0)
    ensures Replace(s, pat, fill) == [s[0]] + Replace(s[1..], pat, fill)
  {
  }

  lemma {:induction false} PrefixOccurs(p: string, rest: string)
    ensures OccursAt(p + rest, p, 0) && (p + rest)[|p|..] == rest
  {
  }

  /** Substituting one placeholder after the other is substituting all at once. */
  lemma {:induction false} SubstitutedIsRendered(page: string, ext: string, fn: string)
    requires IsCount(ext) && IsCount(fn)
    ensures Substituted(page, ext, fn) == Rendered(page, ext, fn)
    decreases |page|
  {
    hide Replace, OccursAt, IsPlaceholder, IsCount;
    var t, e, f := TOTAL_COUNT, EXT_COUNT, FN_COUNT;
    PlaceholdersAre();
    CountHasNoBrace(ext);
    OccursFits(page, t, 0);
    OccursFits(page, e, 0);
    OccursFits(page, f, 0);
    if page == "" {
      NothingToReplace(t, ext);
      NothingToReplace(e, ext);
      NothingToReplace(f, fn);
    } else if OccursAt(page, t, 0) {
      var rest := page[|t|..];
      var r1 := Replace(rest, t, ext);
      ReplaceHit(page, t, ext);
      ReplaceSkipsText(ext, r1, e, ext);
      ReplaceSkipsText(ext, Replace(r1, e, ext), f, fn);
      SubstitutedIsRendered(rest, ext, fn);
    } else if OccursAt(page, e, 0) {
      var rest := page[|e|..];
      var r1 := Replace(rest, t, ext);
      ReplaceSkipsOther(page, t, e, ext);
      PrefixOccurs(e, r1);
      ReplaceHit(e + r1, e, ext);
      ReplaceSkipsText(ext, Replace(r1, e, ext), f, fn);
      SubstitutedIsRendered(rest, ext, fn);
    } else if OccursAt(page, f, 0) {
      var rest := page[|f|..];
      var r1 := Replace(rest, t, ext);
      var r2 := Replace(r1, e, ext);
      ReplaceSkipsOther(page, t, f, ext);
      PrefixOccurs(f, r1);
      ReplaceSkipsOther(f + r1, e, f, ext);
      PrefixOccurs(f, r2);
      ReplaceHit(f + r2, f, fn);
      SubstitutedIsRendered(rest, ext, fn);
    } else {
      SubstituteCharacter(page, ext, fn);
      SubstitutedIsRendered(page[1..], ext, fn);
    }
  }

  lemma {:induction false} NothingToReplace(pat: string, fill: string)
    requires pat != ""
    ensures Replace("", pat, fill) == ""
  {
  }

  lemma {:induction false} SubstituteCharacter(page: string, ext: string, fn: string)
    requires IsCount(ext) && IsCount(fn) && page != ""
    requires !OccursAt(page, TOTAL_COUNT, 0) && !OccursAt(page, EXT_COUNT, 0) && !OccursAt(page, FN_COUNT, 0)
    ensures Substituted(page, ext, fn) == [page[0]] + Substituted(page[1..], ext, fn)
  {
    hide Replace, OccursAt, IsPlaceholder, IsCount;
    var t, e, f := TOTAL_COUNT, EXT_COUNT, FN_COUNT;
    PlaceholdersAre();
    var r1 := Replace(page, t, ext);
    var r2 := Replace(r1, e, ext);
    ReplaceMiss(page, t, ext);
    NoNewPlaceholder(page, t, ext, e);
    NoNewPlaceholder(page, t, ext, f);
    assert r1[1..] == Replace(page[1..], t, ext);
    ReplaceMiss(r1, e, ext);
    NoNewPlaceholder(r1, e, ext, f);
    assert r2[1..] == Replace(r1[1..], e, ext);
    ReplaceMiss(r2, f, fn);
  }

  /** Renaming the total placeholder first changes nothing. */
  lemma {:induction false} RenameThenRender(page: string, ext: string, fn: string)
    ensures Rendered(Replace(page, TOTAL_COUNT, EXT_COUNT), ext, fn) == Rendered(page, ext, fn)
    decreases |page|
  {
    hide Replace, OccursAt, IsPlaceholder;
    var t, e, f := TOTAL_COUNT, EXT_COUNT, FN_COUNT;
    PlaceholdersAre();
    OccursFits(page, t, 0);
    OccursFits(page, e, 0);
    OccursFits(page, f, 0);
    var r := Replace(page, t, e);
    if page == "" {
      NothingToReplace(t, e);
    } else if OccursAt(page, t, 0) {
      var rest := Replace(page[|t|..], t, e);
      ReplaceHit(page, t, e);
      PrefixOccurs(e, rest);
      PlaceholdersExclude(r, e, t);
      RenameThenRender(page[|t|..], ext, fn);
    } else if OccursAt(page, e, 0) {
      var rest := Replace(page[|e|..], t, e);
      ReplaceSkipsOther(page, t, e, e);
      PrefixOccurs(e, rest);
      PlaceholdersExclude(r, e, t);
      RenameThenRender(page[|e|..], ext, fn);
    } else if OccursAt(page, f, 0) {
      var rest := Replace(page[|f|..], t, e);
      ReplaceSkipsOther(page, t, f, e);
      PrefixOccurs(f, rest);
      PlaceholdersExclude(r, f, t);
      PlaceholdersExclude(r, f, e);
      RenameThenRender(page[|f|..], ext, fn);
    } else {
      ReplaceMiss(page, t, e);
      NoNewPlaceholder(page, t, e, t);
      NoNewPlaceholder(page, t, e, e);
      NoNewPlaceholder(page, t, e, f);
      assert r[1..] == Replace(page[1..], t, e);
      RenameThenRender(page[1..], ext, fn);
    }
  }

  // ----- the compiled text evaluates to the substituted page -----

  /** A literal reads back to the string it was made from. */
  lemma {:induction false} LiteralReadsBack(s: string, rest: string)
    requires rest == "" || rest[0] != '\''
    ensures ReadLiteral(Replace(s, "'", "''") + "'" + rest) == Some((s, rest))
    decreases |s|
  {
    if s == "" {
      NothingToReplace("'", "''");
      assert ("'" + rest)[1..] == rest;
    } else {
      LiteralReadsBack(s[1..], rest);
      var tail := Replace(s[1..], "'", "''") + "'" + rest;
      if s[0] == '\'' {
        QuoteDoubles(s);
        assert Replace(s, "'", "''") + "'" + rest == "''" + tail;
        assert ("''" + tail)[2..] == tail;
        assert "'" + s[1..] == s;
      } else {
        Mismatch(s, "'", 0, 0);
        ReplaceMiss(s, "'", "''");
        assert Replace(s, "'", "''") + "'" + rest == [s[0]] + tail;
        assert ([s[0]] + tail)[1..] == tail;
        assert [s[0]] + s[1..] == s;
      }
    }
  }

  lemma {:induction false} QuoteDoubles(s: string)
    requires s != "" && s[0] == '\''
    ensures Replace(s, "'", "''") == "''" + Replace(s[1..], "'", "''")
  {
    assert OccursAt(s, "'", 0);
    ReplaceHit(s, "'", "''");
  }

  /** What follows an operand: more operands or the aliases, never a quote. */
  predicate Follows(rest: string) {
    rest != "" && rest[0] == ' '
  }

  lemma {:induction false} OperandReadsBack(s: string, rest: string, ext: nat, fn: nat)
    requires Follows(rest)
    ensures ReadOperand(SqlStr(s) + rest, ext, fn) == Some((s, rest))
  {
    hide Replace, ReadLiteral, OccursAt;
    LiteralReadsBack(s, rest);
    var text := Replace(s, "'", "''") + "'" + rest;
    assert SqlStr(s) + rest == "'" + text;
    assert ("'" + text)[1..] == text;
  }

  lemma {:induction false} QueryReadsBack(rest: string, ext: nat, fn: nat)
    ensures ReadOperand(EXT_QUERY + rest, ext, fn) == Some((Decimal(ext), rest))
    ensures ReadOperand(FN_QUERY + rest, ext, fn) == Some((Decimal(fn), rest))
  {
    hide ReadLiteral, Decimal, OccursAt;
    PrefixOccurs(EXT_QUERY, rest);
    PrefixOccurs(FN_QUERY, rest);
    QueriesDiffer(rest);
    assert (EXT_QUERY + rest)[0] == EXT_QUERY[0] && (FN_QUERY + rest)[0] == FN_QUERY[0];
  }

  lemma {:induction false} QueriesDiffer(rest: string)
    ensures !OccursAt(FN_QUERY + rest, EXT_QUERY, 0)
    ensures EXT_QUERY[0] != '\'' && FN_QUERY[0] != '\''
  {
    assert EXT_QUERY[40] == 'e' && FN_QUERY[40] == 'f';
    assert (FN_QUERY + rest)[40] == FN_QUERY[40];
    Mismatch(FN_QUERY + rest, EXT_QUERY, 0, 40);
  }

  lemma {:induction false} ConcatStep(head: string, value: string, tail: string, ext: nat, fn: nat)
    requires head != "" && ReadOperand(head + GLUE + tail, ext, fn) == Some((value, GLUE + tail))
    ensures ReadConcat(head + GLUE + tail, ext, fn) ==
            match ReadConcat(tail, ext, fn)
            case None => None
            case Some((v, r)) => Some((value + v, r))
  {
    hide ReadOperand, OccursAt;
    PrefixOccurs(GLUE, tail);
    assert |GLUE + tail| < |head + GLUE + tail|;
  }

  lemma {:induction false} ConcatLast(head: string, value: string, ext: nat, fn: nat)
    requires ReadOperand(head + ALIASES, ext, fn) == Some((value, ALIASES))
    ensures ReadConcat(head + ALIASES, ext, fn) == Some((value, ALIASES))
  {
    hide ReadOperand;
    assert ALIASES[1] == 'A' && GLUE[1] == '|';
    Mismatch(ALIASES, GLUE, 0, 1);
  }

  /** The compiled parts evaluate to the page with its placeholders filled. */
  lemma {:induction false} PartsEvaluate(page: string, ext: nat, fn: nat)
    requires NoTotal(page)
    ensures ReadConcat(Join(Parts(page), GLUE) + ALIASES, ext, fn) ==
            Some((Rendered(page, Decimal(ext), Decimal(fn)), ALIASES))
    decreases |page|
  {
    hide IndexOf, OccursAt, SqlStr, ReadOperand, ReadConcat, Rendered, Decimal;
    var nextExt, nextFn := IndexOf(page, EXT_COUNT, 0), IndexOf(page, FN_COUNT, 0);
    IndexOfFinds(page, EXT_COUNT, 0);
    IndexOfFinds(page, FN_COUNT, 0);
    if nextExt < 0 && nextFn < 0 {
      RenderedPlain(page, |page|, Decimal(ext), Decimal(fn));
      assert page[..|page|] == page && page[|page|..] == "";
      RenderedEmpty(Decimal(ext), Decimal(fn));
      assert page + "" == page;
      LiteralLast(page, ext, fn);
    } else if nextFn < 0 || 0 <= nextExt <= nextFn {
      PartsEvaluateAt(page, nextExt, EXT_COUNT, EXT_QUERY, Decimal(ext), ext, fn);
    } else {
      PartsEvaluateAt(page, nextFn, FN_COUNT, FN_QUERY, Decimal(fn), ext, fn);
    }
  }

  predicate NoTotal(page: string) {
    forall k: nat :: k < |page| ==> !OccursAt(page, TOTAL_COUNT, k)
  }

  lemma {:induction false} AliasesFollow()
    ensures Follows(ALIASES)
  {
  }

  lemma {:induction false} LiteralLast(page: string, ext: nat, fn: nat)
    ensures ReadConcat(SqlStr(page) + ALIASES, ext, fn) == Some((page, ALIASES))
  {
    hide SqlStr, ReadOperand, ReadConcat;
    AliasesFollow();
    OperandReadsBack(page, ALIASES, ext, fn);
    ConcatLast(SqlStr(page), page, ext, fn);
  }

  lemma {:induction false} RenderedEmpty(ext: string, fn: string)
    ensures Rendered("", ext, fn) == ""
  {
  }

  /** The part of a page before its first placeholder is kept. */
  lemma {:induction false} RenderedPlain(page: string, n: nat, ext: string, fn: string)
    requires n <= |page| && NoTotal(page)
    requires IndexOf(page, EXT_COUNT, 0) < 0 || n <= IndexOf(page, EXT_COUNT, 0)
    requires IndexOf(page, FN_COUNT, 0) < 0 || n <= IndexOf(page, FN_COUNT, 0)
    ensures Rendered(page, ext, fn) == page[..n] + Rendered(page[n..], ext, fn)
  {
    hide IndexOf, Rendered, OccursAt;
    IndexOfFinds(page, EXT_COUNT, 0);
    IndexOfFinds(page, FN_COUNT, 0);
    RenderedSkips(page, n, ext, fn);
  }

  lemma {:induction false} RenderedSkips(page: string, n: nat, ext: string, fn: string)
    requires n <= |page|
    requires forall k: nat :: k < n ==>
                                !OccursAt(page, TOTAL_COUNT, k) && !OccursAt(page, EXT_COUNT, k) &&
                                !OccursAt(page, FN_COUNT, k)
    ensures Rendered(page, ext, fn) == page[..n] + Rendered(page[n..], ext, fn)
    decreases n
  {
    hide OccursAt;
    if n == 0 {
      assert page[0..] == page;
    } else {
      var t := page[1..];
      assert page == [page[0]] + t;
      forall k: nat | k < n - 1
        ensures !OccursAt(t, TOTAL_COUNT, k) && !OccursAt(t, EXT_COUNT, k) && !OccursAt(t, FN_COUNT, k)
      {
        OccursInSuffix([page[0]], t, TOTAL_COUNT, k + 1);
        OccursInSuffix([page[0]], t, EXT_COUNT, k + 1);
        OccursInSuffix([page[0]], t, FN_COUNT, k + 1);
        assert !OccursAt(page, TOTAL_COUNT, k + 1);
      }
      RenderedSkips(t, n - 1, ext, fn);
      assert t[n - 1..] == page[n..] && [page[0]] + t[..n - 1] == page[..n];
    }
  }

  lemma {:induction false} PartsEvaluateAt(
    page: string, i: nat, placeholder: string, query: string, value: string, ext: nat, fn: nat)
    requires NoTotal(page) && OccursAt(page, placeholder, i)
    requires IndexOf(page, EXT_COUNT, 0) < 0 || i <= IndexOf(page, EXT_COUNT, 0)
    requires IndexOf(page, FN_COUNT, 0) < 0 || i <= IndexOf(page, FN_COUNT, 0)
    requires (placeholder == EXT_COUNT && query == EXT_QUERY && value == Decimal(ext))
          || (placeholder == FN_COUNT && query == FN_QUERY && value == Decimal(fn))
    requires Parts(page) == [SqlStr(page[..i]), query] + Parts(page[i + |placeholder|..])
    ensures ReadConcat(Join(Parts(page), GLUE) + ALIASES, ext, fn) ==
            Some((Rendered(page, Decimal(ext), Decimal(fn)), ALIASES))
    decreases |page|, 0
  {
    hide *;
    OccursFits(page, placeholder, i);
    var rest := page[i + |placeholder|..];
    var tail := Join(Parts(rest), GLUE) + ALIASES;
    NoTotalBehind(page, i + |placeholder|);
    PlaceholdersNonempty();
    PlaceholdersAre();
    PartsEvaluate(rest, ext, fn);
    TwoOperands(page[..i], query, value, tail, ext, fn);
    JoinTwo(SqlStr(page[..i]), query, Parts(rest));
    assert SqlStr(page[..i]) + GLUE + (query + GLUE + Join(Parts(rest), GLUE)) + ALIASES
        == SqlStr(page[..i]) + GLUE + (query + GLUE + tail);
    RenderedPlain(page, i, Decimal(ext), Decimal(fn));
    RenderedPlaceholder(page, i, placeholder, Decimal(ext), Decimal(fn));
    var done := Rendered(rest, Decimal(ext), Decimal(fn));
    assert page[..i] + (value + done) == page[..i] + value + done;
  }

  /** A literal, then a count, then the rest of the expression. */
  lemma {:induction false} TwoOperands(s: string, query: string, value: string, tail: string, ext: nat, fn: nat)
    requires (query == EXT_QUERY && value == Decimal(ext)) || (query == FN_QUERY && value == Decimal(fn))
    ensures ReadConcat(SqlStr(s) + GLUE + (query + GLUE + tail), ext, fn) ==
            match ReadConcat(tail, ext, fn)
            case None => None
            case Some((v, r)) => Some((s + (value + v), r))
  {
    hide SqlStr, ReadOperand, ReadConcat, Decimal;
    var more := query + GLUE + tail;
    assert query + (GLUE + tail) == more;
    QueryReadsBack(GLUE + tail, ext, fn);
    QueryNonempty();
    ConcatStep(query, value, tail, ext, fn);
    GlueFollows(more);
    OperandReadsBack(s, GLUE + more, ext, fn);
    assert SqlStr(s) + (GLUE + more) == SqlStr(s) + GLUE + more;
    SqlStrNonempty(s);
    ConcatStep(SqlStr(s), s, more, ext, fn);
  }

  lemma {:induction false} QueryNonempty()
    ensures EXT_QUERY != "" && FN_QUERY != ""
  {
  }

  lemma {:induction false} GlueFollows(s: string)
    ensures Follows(GLUE + s)
  {
  }

  lemma {:induction false} SqlStrNonempty(s: string)
    ensures SqlStr(s) != ""
  {
  }

  lemma {:induction false} JoinTwo(a: string, b: string, rest: seq<string>)
    requires rest != []
    ensures Join([a, b] + rest, GLUE) == a + GLUE + (b + GLUE + Join(rest, GLUE))
  {
    assert ([a, b] + rest)[1..] == [b] + rest && ([b] + rest)[1..] == rest;
  }

  lemma {:induction false} NoTotalBehind(page: string, n: nat)
    requires NoTotal(page) && n <= |page|
    ensures NoTotal(page[n..])
  {
    hide OccursAt;
    var t := page[n..];
    assert page == page[..n] + t;
    forall k: nat | k < |t|
      ensures !OccursAt(t, TOTAL_COUNT, k)
    {
      OccursInSuffix(page[..n], t, TOTAL_COUNT, n + k);
      assert !OccursAt(page, TOTAL_COUNT, n + k);
    }
  }

  lemma {:induction false} RenderedPlaceholder(page: string, i: nat, placeholder: string, ext: string, fn: string)
    requires OccursAt(page, placeholder, i) && (placeholder == EXT_COUNT || placeholder == FN_COUNT)
    ensures Rendered(page[i..], ext, fn) ==
            (if placeholder == EXT_COUNT then ext else fn) + Rendered(page[i + |placeholder|..], ext, fn)
  {
    hide OccursAt, IsPlaceholder;
    PlaceholdersAre();
    OccursFits(page, placeholder, i);
    var t := page[i..];
    assert page == page[..i] + t;
    OccursInSuffix(page[..i], t, placeholder, i);
    PlaceholdersExclude(t, placeholder, TOTAL_COUNT);
    if placeholder == FN_COUNT {
      PlaceholdersExclude(t, placeholder, EXT_COUNT);
    }
    assert t[|placeholder|..] == page[i + |placeholder|..];
    PlaceholderNonempty(t, placeholder);
  }

  lemma {:induction false} PlaceholderNonempty(t: string, placeholder: string)
    requires IsPlaceholder(placeholder) && OccursAt(t, placeholder, 0)
    ensures t != ""
  {
  }

  /** After the renaming no total placeholder is left. */
  lemma {:induction false} RenamedHasNoTotal(page: string)
    ensures NoTotal(Replace(page, TOTAL_COUNT, EXT_COUNT))
    decreases |page|
  {
    hide OccursAt, IsPlaceholder;
    var t, e := TOTAL_COUNT, EXT_COUNT;
    PlaceholdersAre();
    OccursFits(page, t, 0);
    if page != "" {
      var r := Replace(page, t, e);
      var rest := if OccursAt(page, t, 0) then page[|t|..] else page[1..];
      var head := if OccursAt(page, t, 0) then e else [page[0]];
      PlaceholdersNonempty();
      RenamedHasNoTotal(rest);
      assert r == head + Replace(rest, t, e);
      forall k: nat | k < |r|
        ensures !OccursAt(r, t, k)
      {
        if k >= |head| {
          OccursInSuffix(head, Replace(rest, t, e), t, k);
        } else if OccursAt(page, t, 0) {
          PrefixOccurs(e, Replace(rest, t, e));
          if k == 0 {
            PlaceholdersExclude(r, e, t);
          } else {
            PlaceholdersDoNotNest(r, e, t, k);
          }
        } else {
          NoNewPlaceholder(page, t, e, t);
        }
      }
    }
  }

  lemma {:induction false} PlaceholdersNonempty()
    ensures |TOTAL_COUNT| > 0 && |EXT_COUNT| > 0 && |FN_COUNT| > 0
  {
  }

  /** For every template: the SQL evaluates to the page with every extension
      and function placeholder substituted. */
  lemma {:induction false} HandlerMeaning(template: string, style: string, dataJson: string, ext: nat, fn: nat)
    ensures EvalSelect(Handler(template, style, dataJson), ext, fn) ==
            Some((Substituted(StaticPage(template, style, dataJson), Decimal(ext), Decimal(fn)), CTYPE))
  {
    hide Replace, OccursAt, Substituted, Rendered, ReadConcat, Parts, Join, StaticPage, NoTotal, Decimal, AllDigits;
    var base := StaticPage(template, style, dataJson);
    var page := Replace(base, TOTAL_COUNT, EXT_COUNT);
    var expr := Join(Parts(page), GLUE);
    RenamedHasNoTotal(base);
    PartsEvaluate(page, ext, fn);
    RenameThenRender(base, Decimal(ext), Decimal(fn));
    SubstitutedIsRendered(base, Decimal(ext), Decimal(fn));
    assert SELECT + expr + ALIASES == SELECT + (expr + ALIASES);
    PrefixOccurs(SELECT, expr + ALIASES);
  }

  // ----- templates given as pieces -----

  datatype Piece = Plain(text: string) | StyleSlot | DataSlot | ExtSlot | FnSlot | TotalSlot

  /** A piece as it stands in a template. */
  function Source(p: Piece): string {
    match p
    case Plain(t) => t
    case StyleSlot => "{{STYLE}}"
    case DataSlot => "{{DATA_JSON}}"
    case ExtSlot => "{{EXT_COUNT}}"
    case FnSlot => "{{FN_COUNT}}"
    case TotalSlot => "{{TOTAL_COUNT}}"
  }

  /** A piece as it stands in the page served. */
  function Value(p: Piece, style: string, dataJson: string, ext: nat, fn: nat): string {
    match p
    case Plain(t) => t
    case StyleSlot => style
    case DataSlot => dataJson
    case ExtSlot => Decimal(ext)
    case FnSlot => Decimal(fn)
    case TotalSlot => Decimal(ext)
  }

  function Template(pieces: seq<Piece>): string {
    if pieces == [] then "" else Source(pieces[0]) + Template(pieces[1..])
  }

  function Page(pieces: seq<Piece>, style: string, dataJson: string, ext: nat, fn: nat): string {
    if pieces == [] then ""
    else Value(pieces[0], style, dataJson, ext, fn) + Page(pieces[1..], style, dataJson, ext, fn)
  }

  /** The text and a placeholder agree, from position `i` of the text on, as far
      as both go. */
  predicate StartsAt(t: string, p: string, i: nat)
    requires i <= |t|
  {
    forall k :: 0 <= k < |p| && i + k < |t| ==> t[i + k] == p[k]
  }

  const SLOTS := {StyleSlot, DataSlot, ExtSlot, FnSlot, TotalSlot}

  /** No placeholder stands in the text or begins at its end. */
  predicate Free(t: string) {
    forall i, slot <- SLOTS :: 0 <= i < |t| ==> !StartsAt(t, Source(slot), i)
  }

  predicate FreePiece(p: Piece) {
    p.Plain? ==> Free(p.text)
  }

  predicate AllFree(pieces: seq<Piece>) {
    forall p <- pieces :: FreePiece(p)
  }

  /** Text without braces is one kind that is free. */
  lemma {:induction false} BracelessIsFree(t: string)
    requires '{' !in t
    ensures Free(t)
  {
    forall i, slot | slot in SLOTS && 0 <= i < |t|
      ensures !StartsAt(t, Source(slot), i)
    {
      assert t[i] in t && Source(slot)[0] == '{';
      assert t[i + 0] != Source(slot)[0];
    }
  }

  function FillOne(p: Piece, slot: Piece, fill: string): Piece {
    if p == slot then Plain(fill) else p
  }

  function Filled(pieces: seq<Piece>, slot: Piece, fill: string): seq<Piece> {
    if pieces == [] then [] else [FillOne(pieces[0], slot, fill)] + Filled(pieces[1..], slot, fill)
  }

  lemma {:induction false} SlotsArePlaceholders(slot: Piece)
    requires !slot.Plain?
    ensures IsPlaceholder(Source(slot)) && slot in SLOTS
  {
  }

  lemma {:induction false} SlotsDiffer(a: Piece, b: Piece)
    requires !a.Plain? && !b.Plain? && a != b
    ensures Source(a) != Source(b)
  {
    assert Source(StyleSlot)[2] == 'S' && Source(DataSlot)[2] == 'D' && Source(ExtSlot)[2] == 'E';
    assert Source(FnSlot)[2] == 'F' && Source(TotalSlot)[2] == 'T';
  }

  lemma {:induction false} FreeHasNone(t: string, rest: string, slot: Piece, i: nat)
    requires Free(t) && i < |t| && !slot.Plain?
    ensures !OccursAt(t + rest, Source(slot), i)
  {
    hide Source;
    SlotsArePlaceholders(slot);
    var p := Source(slot);
    assert !StartsAt(t, p, i);
    var k :| 0 <= k < |p| && i + k < |t| && t[i + k] != p[k];
    Mismatch(t + rest, p, i, k);
  }

  /** Replacing one placeholder fills its slots and leaves the other pieces. */
  lemma {:induction false} ReplaceSlot(pieces: seq<Piece>, slot: Piece, fill: string)
    requires AllFree(pieces) && !slot.Plain?
    ensures Source(slot) != ""
    ensures Replace(Template(pieces), Source(slot), fill) == Template(Filled(pieces, slot, fill))
  {
    SlotsArePlaceholders(slot);
    hide Source, OccursAt, Free, Replace, IsPlaceholder;
    if pieces == [] {
      NothingToReplace(Source(slot), fill);
    } else {
      assert pieces[0] in pieces && forall p <- pieces[1..] :: p in pieces;
      ReplaceSlot(pieces[1..], slot, fill);
      var p, rest := pieces[0], Template(pieces[1..]);
      ReplacePiece(p, rest, slot, fill);
      assert Filled(pieces, slot, fill)[1..] == Filled(pieces[1..], slot, fill);
      assert Template(Filled(pieces, slot, fill)) ==
             Source(FillOne(p, slot, fill)) + Template(Filled(pieces[1..], slot, fill));
    }
  }

  lemma {:induction false} ReplacePiece(p: Piece, rest: string, slot: Piece, fill: string)
    requires FreePiece(p) && !slot.Plain? && Source(slot) != ""
    ensures Replace(Source(p) + rest, Source(slot), fill) ==
            Source(FillOne(p, slot, fill)) + Replace(rest, Source(slot), fill)
  {
    var q := Source(slot);
    SlotsArePlaceholders(slot);
    if p.Plain? {
      hide OccursAt, Free, Replace, IsPlaceholder;
      forall i: nat | i < |p.text|
        ensures !OccursAt(p.text + rest, q, i)
      {
        FreeHasNone(p.text, rest, slot, i);
      }
      ReplaceSkips(p.text + rest, q, fill, |p.text|);
      assert (p.text + rest)[..|p.text|] == p.text && (p.text + rest)[|p.text|..] == rest;
    } else if p == slot {
      PlainSource(fill);
      hide Source, OccursAt, Replace, IsPlaceholder;
      PrefixOccurs(q, rest);
      ReplaceHit(q + rest, q, fill);
    } else {
      SlotsArePlaceholders(p);
      SlotsDiffer(p, slot);
      hide Source, OccursAt, Replace, IsPlaceholder;
      PrefixOccurs(Source(p), rest);
      ReplaceSkipsOther(Source(p) + rest, q, Source(p), fill);
    }
  }

  lemma {:induction false} PlainSource(t: string)
    ensures Source(Plain(t)) == t
  {
  }

  lemma {:induction false} FilledIsFree(pieces: seq<Piece>, slot: Piece, fill: string)
    requires AllFree(pieces) && Free(fill)
    ensures AllFree(Filled(pieces, slot, fill))
  {
    hide Free;
    if pieces != [] {
      assert pieces[0] in pieces && forall p <- pieces[1..] :: p in pieces;
      FilledIsFree(pieces[1..], slot, fill);
    }
  }

  lemma {:induction false} CountIsFree(n: nat)
    ensures Free(Decimal(n))
  {
    hide Decimal, Free;
    BracelessIsFree(Decimal(n));
  }

  /** With every slot filled the template is the page. */
  lemma {:induction false} AllFilled(pieces: seq<Piece>, style: string, dataJson: string, ext: nat, fn: nat)
    ensures var a := Filled(Filled(pieces, StyleSlot, style), DataSlot, dataJson);
            var b := Filled(Filled(Filled(a, TotalSlot, Decimal(ext)), ExtSlot, Decimal(ext)), FnSlot, Decimal(fn));
            Template(b) == Page(pieces, style, dataJson, ext, fn)
  {
    hide Decimal;
    if pieces != [] {
      AllFilled(pieces[1..], style, dataJson, ext, fn);
      FilledHead(pieces, StyleSlot, style);
      var p1 := Filled(pieces, StyleSlot, style);
      FilledHead(p1, DataSlot, dataJson);
      var p2 := Filled(p1, DataSlot, dataJson);
      FilledHead(p2, TotalSlot, Decimal(ext));
      var p3 := Filled(p2, TotalSlot, Decimal(ext));
      FilledHead(p3, ExtSlot, Decimal(ext));
      var p4 := Filled(p3, ExtSlot, Decimal(ext));
      FilledHead(p4, FnSlot, Decimal(fn));
      hide Filled;
      assert Source(Filled(p4, FnSlot, Decimal(fn))[0]) == Value(pieces[0], style, dataJson, ext, fn);
    }
  }

  lemma {:induction false} FilledHead(pieces: seq<Piece>, slot: Piece, fill: string)
    requires pieces != []
    ensures var r := Filled(pieces, slot, fill);
            r != [] && r[0] == FillOne(pieces[0], slot, fill) && r[1..] == Filled(pieces[1..], slot, fill)
  {
  }

  lemma {:induction false} SourcesAre()
    ensures Source(StyleSlot) == STYLE && Source(DataSlot) == DATA_JSON
    ensures Source(ExtSlot) == EXT_COUNT && Source(FnSlot) == FN_COUNT && Source(TotalSlot) == TOTAL_COUNT
  {
  }

  /** For every template made of text and slots: the SQL evaluates to the pieces
      in order, with the style, the JSON and the counts each in its slots. The
      text, the style and the JSON may not contain placeholders or their
      beginnings at the end. */
  lemma {:induction false} PiecesMeaning(pieces: seq<Piece>, style: string, dataJson: string, ext: nat, fn: nat)
    requires AllFree(pieces) && Free(style) && Free(dataJson)
    ensures EvalSelect(Handler(Template(pieces), style, dataJson), ext, fn) ==
            Some((Page(pieces, style, dataJson, ext, fn), "text/html; charset=utf-8"))
  {
    HandlerMeaning(Template(pieces), style, dataJson, ext, fn);
    SourcesAre();
    hide Source, Free, AllFree, Template, Page, Filled, Replace, EvalSelect, Handler, Decimal;
    ReplaceSlot(pieces, StyleSlot, style);
    FilledIsFree(pieces, StyleSlot, style);
    var p1 := Filled(pieces, StyleSlot, style);
    ReplaceSlot(p1, DataSlot, dataJson);
    FilledIsFree(p1, DataSlot, dataJson);
    var p2 := Filled(p1, DataSlot, dataJson);
    CountIsFree(ext);
    CountIsFree(fn);
    ReplaceSlot(p2, TotalSlot, Decimal(ext));
    FilledIsFree(p2, TotalSlot, Decimal(ext));
    var p3 := Filled(p2, TotalSlot, Decimal(ext));
    ReplaceSlot(p3, ExtSlot, Decimal(ext));
    FilledIsFree(p3, ExtSlot, Decimal(ext));
    ReplaceSlot(Filled(p3, ExtSlot, Decimal(ext)), FnSlot, Decimal(fn));
    AllFilled(pieces, style, dataJson, ext, fn);
  }

  /** The fixed texts of the SQL: the two subqueries, what joins the operands,
      and what stands before and behind them. */
  lemma {:induction false} FixedTexts()
    ensures EXT_QUERY == "(" + "SELECT count FROM site_meta WHERE key='" + "extension_count')"
    ensures FN_QUERY == "(" + "SELECT count FROM site_meta WHERE key='" + "function_count')"
    ensures SELECT == "SELECT " && GLUE == " || "
    ensures ALIASES == " AS " + "body, 'text/html; charset=utf-8' AS ctype"
  {
  }
}
