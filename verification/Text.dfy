/** String operations that the modelled programs take from their standard
    libraries, with the laws the other modules need. */
module Text {

  datatype Option<+T> = None | Some(value: T) {
    predicate IsFailure() { None? }
    function PropagateFailure<U>(): Option<U> requires None? { None }
    function Extract(): T requires Some? { value }
  }

  type Byte = x: int | 0 <= x < 256
  type Bytes = seq<Byte>

  /** `pat` stands in `s` at position `i`. */
  predicate OccursAt(s: string, pat: string, i: nat) {
    i + |pat| <= |s| && forall k :: 0 <= k < |pat| ==> pat[k] == s[i + k]
  }

  predicate StartsWith(s: string, p: string) {
    |p| <= |s| && s[..|p|] == p
  }

  lemma {:induction false} OccursIs(s: string, pat: string, i: nat)
    ensures OccursAt(s, pat, i) <==> i <= |s| && StartsWith(s[i..], pat)
  {
    if OccursAt(s, pat, i) {
      assert s[i..][..|pat|] == pat;
    } else if i <= |s| && |pat| <= |s[i..]| {
      var k :| 0 <= k < |pat| && pat[k] != s[i + k];
      assert s[i..][..|pat|][k] == s[i + k];
    }
  }

  /** The first position at or after `from` where `pat` stands, or -1. */
  function IndexOf(s: string, pat: string, from: nat): (r: int)
    ensures -1 <= r
    ensures r >= 0 ==> from <= r && r + |pat| <= |s|
    decreases |s| - from
  {
    if from + |pat| > |s| then -1
    else if OccursAt(s, pat, from) then from
    else IndexOf(s, pat, from + 1)
  }

  lemma {:induction false} IndexOfFinds(s: string, pat: string, from: nat)
    ensures var r := IndexOf(s, pat, from);
            && (r >= 0 ==> OccursAt(s, pat, r))
            && forall i: nat :: from <= i && (r >= 0 ==> i < r) ==> !OccursAt(s, pat, i)
    decreases |s| - from
  {
    if from + |pat| <= |s| && !OccursAt(s, pat, from) {
      IndexOfFinds(s, pat, from + 1);
    }
  }

  /** A position where `pat` stands, with none before it, is the one found. */
  lemma {:induction false} IndexOfIs(s: string, pat: string, from: nat, i: nat)
    requires from <= i && OccursAt(s, pat, i)
    requires forall j: nat :: from <= j < i ==> !OccursAt(s, pat, j)
    ensures IndexOf(s, pat, from) == i
  {
    IndexOfFinds(s, pat, from);
  }

  /** Searching behind a prefix is searching the rest. */
  lemma {:induction false} IndexOfShift(a: string, s: string, pat: string, from: nat)
    ensures var r := IndexOf(s, pat, from);
            IndexOf(a + s, pat, |a| + from) == if r < 0 then -1 else |a| + r
    decreases |s| - from
  {
    if from + |pat| <= |s| {
      OccursInSuffix(a, s, pat, |a| + from);
      IndexOfShift(a, s, pat, from + 1);
    }
  }

  /** One differing character rules an occurrence out. */
  lemma {:induction false} Mismatch(s: string, pat: string, i: nat, k: nat)
    requires k < |pat| && (i + k >= |s| || s[i + k] != pat[k])
    ensures !OccursAt(s, pat, i)
  {
  }

  lemma {:induction false} OccursFits(s: string, pat: string, i: nat)
    ensures OccursAt(s, pat, i) ==> i + |pat| <= |s|
  {
  }

  /** An occurrence, character by character. */
  lemma {:induction false} OccursHeadTail(s: string, pat: string)
    requires pat != ""
    ensures OccursAt(s, pat, 0) <==> s != "" && s[0] == pat[0] && OccursAt(s[1..], pat[1..], 0)
  {
    if s != "" && s[0] == pat[0] && OccursAt(s[1..], pat[1..], 0) {
      assert forall k :: 0 < k < |pat| ==> pat[k] == pat[1..][k - 1] == s[1..][k - 1] == s[k];
    }
    if OccursAt(s, pat, 0) {
      assert forall k :: 0 <= k < |pat| - 1 ==> pat[1..][k] == pat[k + 1] == s[k + 1] == s[1..][k];
    }
  }

  lemma {:induction false} OccursInSuffix(head: string, tail: string, pat: string, j: nat)
    requires |head| <= j
    ensures OccursAt(head + tail, pat, j) <==> OccursAt(tail, pat, j - |head|)
  {
    if OccursAt(head + tail, pat, j) {
      assert forall k :: 0 <= k < |pat| ==> pat[k] == (head + tail)[j + k] == tail[j - |head| + k];
    }
  }

  /** White space and line ends, as JavaScript has them. */
  predicate IsSpace(c: char) {
    || c in {' ', '\t', '\n', '\r', '\U{000B}', '\U{000C}', '\U{00A0}', '\U{1680}'}
    || '\U{2000}' <= c <= '\U{200A}'
    || c in {'\U{2028}', '\U{2029}', '\U{202F}', '\U{205F}', '\U{3000}', '\U{FEFF}'}
  }

  predicate AllSpace(s: string) {
    forall i :: 0 <= i < |s| ==> IsSpace(s[i])
  }

  function TrimEnd(s: string): string {
    if s != "" && IsSpace(s[|s| - 1]) then TrimEnd(s[..|s| - 1]) else s
  }

  /** White space is none of the visible ASCII characters, and among others
      the ASCII controls and the spaces that JavaScript counts in. */
  lemma {:induction false} SpacesAre(c: char)
    ensures '!' <= c <= '~' ==> !IsSpace(c)
    ensures c == ' ' || '\t' <= c <= '\r' || c == '\U{00A0}' || c == '\U{FEFF}' ==> IsSpace(c)
  {
    if '\t' <= c <= '\r' {
      assert c in {'\t', '\n', '\U{000B}', '\U{000C}', '\r'};
    }
  }

  lemma {:induction false} TrimEndIs(body: string, white: string)
    requires (forall c <- white :: IsSpace(c)) && (body != "" ==> !IsSpace(body[|body| - 1]))
    ensures TrimEnd(body + white) == body
  {
    hide IsSpace;
    if white == "" {
      assert body + white == body;
    } else {
      var n := |white| - 1;
      assert (body + white)[..|body + white| - 1] == body + white[..n];
      assert (body + white)[|body + white| - 1] == white[n] && white[n] in white;
      assert forall c <- white[..n] :: c in white;
      TrimEndIs(body, white[..n]);
    }
  }

  /** The pieces of `s` between the occurrences of `c`. */
  function Split(s: string, c: char): (r: seq<string>)
    ensures r != []
    ensures forall piece <- r :: c !in piece
  {
    if s == "" then [""]
    else
      var rest := Split(s[1..], c);
      if s[0] == c then [""] + rest else [[s[0]] + rest[0]] + rest[1..]
  }

  lemma {:induction false} SplitOne(w: string, c: char)
    requires c !in w
    ensures Split(w, c) == [w]
  {
    if w != "" {
      SplitOne(w[1..], c);
      assert w == [w[0]] + w[1..];
    }
  }

  lemma {:induction false} SplitFirst(w: string, c: char, rest: string)
    requires c !in w
    ensures Split(w + [c] + rest, c) == [w] + Split(rest, c)
  {
    var s := w + [c] + rest;
    if w == "" {
      assert s[1..] == rest;
    } else {
      SplitFirst(w[1..], c, rest);
      assert s[1..] == w[1..] + [c] + rest;
      assert w == [w[0]] + w[1..];
    }
  }

  /** Splitting at a separator splits both sides. */
  lemma {:induction false} SplitAround(a: string, c: char, b: string)
    ensures Split(a + [c] + b, c) == Split(a, c) + Split(b, c)
  {
    var s := a + [c] + b;
    if a == "" {
      assert s[1..] == b;
    } else {
      assert s[1..] == a[1..] + [c] + b;
      SplitAround(a[1..], c, b);
    }
  }

  /** The pieces with `sep` between them. */
  function Join(pieces: seq<string>, sep: string): string
    requires pieces != []
  {
    if |pieces| == 1 then pieces[0] else pieces[0] + sep + Join(pieces[1..], sep)
  }

  predicate IsDigit(c: char) {
    '0' <= c <= '9'
  }

  function DigitOf(n: nat): char
    requires n < 10
  {
    '0' + n as char
  }

  predicate AllDigits(s: string) {
    forall c <- s :: IsDigit(c)
  }

  function DigitsValue(s: string): nat
    requires AllDigits(s)
  {
    if s == "" then 0
    else
      assert s[|s| - 1] in s;
      10 * DigitsValue(s[..|s| - 1]) + (s[|s| - 1] as nat - '0' as nat)
  }

  /** `str::parse` for an unsigned type below `bound`: an optional plus sign,
      then at least one digit. */
  function ParseUnsigned(s: string, bound: nat): (r: Option<nat>)
    ensures r.Some? ==> r.value < bound
  {
    var t := if s != "" && s[0] == '+' then s[1..] else s;
    if t != "" && AllDigits(t) && DigitsValue(t) < bound then Some(DigitsValue(t)) else None
  }

  /** `str::parse::<i32>`. */
  function ParseI32(s: string): (r: Option<int>)
    ensures r.Some? ==> -0x8000_0000 <= r.value < 0x8000_0000
  {
    if s != "" && s[0] == '-' then
      var t := s[1..];
      if t != "" && AllDigits(t) && DigitsValue(t) <= 0x8000_0000 then Some(0 - DigitsValue(t)) else None
    else
      var r :- ParseUnsigned(s, 0x8000_0000);
      Some(r)
  }

  /** Digits with or without a sign, as far as 32 bits go. */
  lemma {:induction false} ParseI32Is(digits: string)
    requires digits != "" && AllDigits(digits)
    ensures var n: int := DigitsValue(digits);
            && ParseI32(digits) == ParseI32("+" + digits) == (if n < 0x8000_0000 then Some(n) else None)
            && ParseI32("-" + digits) == if n <= 0x8000_0000 then Some(0 - n) else None
    ensures ParseI32("") == ParseI32("-") == ParseI32("+") == None
  {
    assert digits[0] in digits;
    assert ("-" + digits)[1..] == digits && ("+" + digits)[1..] == digits;
    assert "-"[1..] == "" && "+"[1..] == "";
  }

  /** The decimal form of `n`, without leading zeros. */
  function Decimal(n: nat): (s: string)
    ensures s != "" && AllDigits(s)
  {
    if n < 10 then [DigitOf(n)] else Decimal(n / 10) + [DigitOf(n % 10)]
  }

  lemma {:induction false} DecimalValue(n: nat)
    ensures DigitsValue(Decimal(n)) == n
  {
    if n >= 10 {
      DecimalValue(n / 10);
      var s := Decimal(n);
      assert s[..|s| - 1] == Decimal(n / 10);
    }
  }

  lemma {:induction false} ParseDecimal(n: nat, bound: nat)
    requires n < bound
    ensures ParseUnsigned(Decimal(n), bound) == Some(n)
  {
    DecimalValue(n);
    assert IsDigit(Decimal(n)[0]);
  }

  predicate IsHexDigit(c: char) {
    '0' <= c <= '9' || 'a' <= c <= 'f' || 'A' <= c <= 'F'
  }

  /** A hexadecimal digit, in either case, and its value. */
  predicate IsNibble(c: char, n: int) {
    || (0 <= n < 10 && c as int == '0' as int + n)
    || (10 <= n < 16 && (c as int == 'a' as int + n - 10 || c as int == 'A' as int + n - 10))
  }

  /** The order of strings by their characters. */
  predicate Leq(a: string, b: string) {
    a == "" || (b != "" && (a[0] < b[0] || (a[0] == b[0] && Leq(a[1..], b[1..]))))
  }

  /** A string is before its extensions; otherwise the first character that
      differs decides. */
  lemma {:induction false} LeqIs(p: string, c: char, x: string, d: char, y: string)
    ensures Leq(p, p + x)
    ensures c < d ==> Leq(p + [c] + x, p + [d] + y) && !Leq(p + [d] + y, p + [c] + x)
  {
    if p == "" {
      assert [c] + x != "" && [d] + y != "";
    } else {
      assert (p + x)[1..] == p[1..] + x;
      assert (p + [c] + x)[1..] == p[1..] + [c] + x && (p + [d] + y)[1..] == p[1..] + [d] + y;
      LeqIs(p[1..], c, x, d, y);
    }
  }

  lemma {:induction false} LeqAntisymmetric(a: string, b: string)
    requires Leq(a, b) && Leq(b, a)
    ensures a == b
  {
    if a != "" {
      LeqAntisymmetric(a[1..], b[1..]);
      assert a == [a[0]] + a[1..] && b == [b[0]] + b[1..];
    }
  }

  lemma {:induction false} LeqTransitive(a: string, b: string, c: string)
    requires Leq(a, b) && Leq(b, c)
    ensures Leq(a, c)
  {
    if a != "" && a[0] == b[0] == c[0] {
      LeqTransitive(a[1..], b[1..], c[1..]);
    }
  }

  lemma {:induction false} LeqTotal(a: string, b: string)
    ensures Leq(a, b) || Leq(b, a)
  {
    if a != "" && b != "" && a[0] == b[0] {
      LeqTotal(a[1..], b[1..]);
    }
  }
}
