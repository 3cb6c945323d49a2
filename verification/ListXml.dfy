/** Parsing of ListObjectsV2 responses (host/src/s3.rs:363-430): a block scanner
    with a moving cursor, a leaf reader, and the record builder on top of them.

    The parser works on characters.  The proofs lift it to a sequence of tags
    and texts (`Token`), where a search for a tag finds the first equal tag. */
module ListXml {
  import opened Text
  import CivilTime

  datatype ObjectInfo = ObjectInfo(
    key: string, size: nat, etag: Option<string>, lastModified: Option<nat>, storageClass: Option<string>)

  datatype Listing = Listing(
    objects: seq<ObjectInfo>, commonPrefixes: seq<string>, nextContinuationToken: Option<string>, isTruncated: bool)

  type Checked<+T> = CivilTime.Checked<T>

  const U64_BOUND: nat := 0x1_0000_0000_0000_0000

  // The element names the parser looks for.
  const CONTENTS := "Contents"
  const COMMON_PREFIXES := "CommonPrefixes"
  const IS_TRUNCATED := "IsTruncated"
  const TOKEN := "NextContinuationToken"
  const KEY := "Key"
  const SIZE := "Size"
  const ETAG := "ETag"
  const LAST_MODIFIED := "LastModified"
  const STORAGE_CLASS := "StorageClass"
  const PREFIX := "Prefix"

  function Open(tag: string): string {
    "<" + tag + ">"
  }

  function Close(tag: string): string {
    "</" + tag + ">"
  }

  /** The text between the first `open` and the next `close`. */
  function Between(body: string, open: string, close: string): Option<string> {
    var start := IndexOf(body, open, 0);
    if start < 0 then None
    else
      var from := start + |open|;
      var end := IndexOf(body, close, from);
      if end < 0 then None else Some(body[from..end])
  }

  /** The texts between `open` and the next `close`, from `cursor` on. */
  function AllBetween(body: string, open: string, close: string, cursor: nat): seq<string>
    requires open != ""
    decreases |body| - cursor
  {
    var start := IndexOf(body, open, cursor);
    if start < 0 then []
    else
      var from := start + |open|;
      var end := IndexOf(body, close, from);
      if end < 0 then [] else [body[from..end]] + AllBetween(body, open, close, end + |close|)
  }

  function XmlTag(body: string, tag: string): Option<string> {
    Between(body, Open(tag), Close(tag))
  }

  function Blocks(body: string, tag: string): seq<string> {
    AllBetween(body, Open(tag), Close(tag), 0)
  }

  /** The scanner: its cursor moves past one whole element at a time. */
  method XmlBlocks(body: string, tag: string) returns (out: seq<string>)
    ensures out == Blocks(body, tag)
  {
    out := ScanBlocks(body, Open(tag), Close(tag));
  }

  method ScanBlocks(body: string, open: string, close: string) returns (out: seq<string>)
    requires open != ""
    ensures out == AllBetween(body, open, close, 0)
  {
    hide IndexOf, OccursAt;
    out := [];
    var cursor := 0;
    while true
      invariant 0 <= cursor <= |body|
      invariant out + AllBetween(body, open, close, cursor) == AllBetween(body, open, close, 0)
      decreases |body| - cursor
    {
      var start := IndexOf(body, open, cursor);
      if start < 0 {
        break;
      }
      var absStart := start + |open|;
      var absEnd := IndexOf(body, close, absStart);
      if absEnd < 0 {
        break;
      }
      out := out + [body[absStart..absEnd]];
      cursor := absEnd + |close|;
    }
  }

  /** Scanning behind a prefix is scanning the rest. */
  lemma {:induction false} AllBetweenShift(a: string, s: string, open: string, close: string, cursor: nat)
    requires open != ""
    ensures AllBetween(a + s, open, close, |a| + cursor) == AllBetween(s, open, close, cursor)
    decreases |s| - cursor
  {
    hide IndexOf, OccursAt;
    IndexOfShift(a, s, open, cursor);
    var start := IndexOf(s, open, cursor);
    if start >= 0 {
      var from := start + |open|;
      IndexOfShift(a, s, close, from);
      var end := IndexOf(s, close, from);
      if end >= 0 {
        SliceShift(a, s, from, end);
        AllBetweenShift(a, s, open, close, end + |close|);
      }
    }
  }

  lemma {:induction false} SliceShift(a: string, s: string, from: nat, end: nat)
    requires from <= end <= |s|
    ensures (a + s)[|a| + from..|a| + end] == s[from..end]
  {
  }

  /** Both searches when the first element is `inner`, after `head`, which ends
      with the opening tag. */
  lemma {:induction false} FirstBetween(
      head: string, open: string, inner: string, close: string, post: string, body: string)
    requires open != "" && body == head + (inner + close + post)
    requires 0 <= IndexOf(body, open, 0) && IndexOf(body, open, 0) + |open| == |head|
    requires IndexOf(inner + close + post, close, 0) == |inner|
    ensures Between(body, open, close) == Some(inner)
    ensures AllBetween(body, open, close, 0) == [inner] + AllBetween(post, open, close, 0)
  {
    hide IndexOf, OccursAt;
    var tail, skipped := inner + close + post, head + inner + close;
    IndexOfShift(head, tail, close, 0);
    SliceShift(head, tail, 0, |inner|);
    assert tail[0..|inner|] == inner;
    assert body == skipped + post;
    AllBetweenShift(skipped, post, open, close, 0);
  }

  function TrimQuotesLeft(s: string): string {
    if s != "" && s[0] == '"' then TrimQuotesLeft(s[1..]) else s
  }

  function TrimQuotesRight(s: string): string {
    if s != "" && s[|s| - 1] == '"' then TrimQuotesRight(s[..|s| - 1]) else s
  }

  /** `trim_matches('"')`. */
  function TrimQuotes(s: string): string {
    TrimQuotesRight(TrimQuotesLeft(s))
  }

  function LowerAscii(s: string): string {
    if s == "" then ""
    else [if 'A' <= s[0] <= 'Z' then s[0] - 'A' + 'a' else s[0]] + LowerAscii(s[1..])
  }

  /** The epoch second of an optional time stamp; a stamp that does not parse
      counts as absent. */
  function Stamp(text: Option<string>): Checked<Option<nat>> {
    match text
    case None => CivilTime.Value(None)
    case Some(s) => CivilTime.Iso8601ToEpoch(s)
  }

  function ObjectOf(block: string): Checked<ObjectInfo> {
    var key := XmlTag(block, KEY);
    var size := XmlTag(block, SIZE);
    var parsed := if size.Some? then ParseUnsigned(size.value, U64_BOUND) else None;
    var etag := XmlTag(block, ETAG);
    var stamp :- Stamp(XmlTag(block, LAST_MODIFIED));
    CivilTime.Value(ObjectInfo(
                      if key.Some? then key.value else "",
                      if parsed.Some? then parsed.value else 0,
                      if etag.Some? then Some(TrimQuotes(etag.value)) else None,
                      stamp,
                      XmlTag(block, STORAGE_CLASS)))
  }

  function ObjectsOf(blocks: seq<string>): Checked<seq<ObjectInfo>> {
    if blocks == [] then CivilTime.Value([])
    else
      var init :- ObjectsOf(blocks[..|blocks| - 1]);
      var last :- ObjectOf(blocks[|blocks| - 1]);
      CivilTime.Value(init + [last])
  }

  function PrefixesOf(blocks: seq<string>): seq<string> {
    if blocks == [] then []
    else
      PrefixesOf(blocks[..|blocks| - 1]) +
      match XmlTag(blocks[|blocks| - 1], PREFIX)
      case None => []
      case Some(p) => [p]
  }

  function ListingOf(body: string): Checked<Listing> {
    var objects :- ObjectsOf(Blocks(body, CONTENTS));
    var truncated := XmlTag(body, IS_TRUNCATED);
    CivilTime.Value(Listing(
                      objects,
                      PrefixesOf(Blocks(body, COMMON_PREFIXES)),
                      XmlTag(body, TOKEN),
                      truncated.Some? && LowerAscii(truncated.value) == "true"))
  }

  method ParseListResponse(body: string) returns (r: Checked<Listing>)
    ensures r == ListingOf(body)
  {
    hide Blocks, XmlTag, ObjectOf, LowerAscii;
    var objects: seq<ObjectInfo> := [];
    var blocks := XmlBlocks(body, CONTENTS);
    for i := 0 to |blocks|
      invariant ObjectsOf(blocks[..i]) == CivilTime.Value(objects)
    {
      assert blocks[..i + 1][..i] == blocks[..i];
      var o := ObjectOf(blocks[i]);
      if o.Overflow? {
        ObjectsOverflow(blocks, i + 1);
        return CivilTime.Overflow;
      }
      objects := objects + [o.value];
    }
    assert blocks[..|blocks|] == blocks;
    var prefixes: seq<string> := [];
    var prefixBlocks := XmlBlocks(body, COMMON_PREFIXES);
    for i := 0 to |prefixBlocks|
      invariant PrefixesOf(prefixBlocks[..i]) == prefixes
    {
      assert prefixBlocks[..i + 1][..i] == prefixBlocks[..i];
      var p := XmlTag(prefixBlocks[i], PREFIX);
      if p.Some? {
        prefixes := prefixes + [p.value];
      }
    }
    assert prefixBlocks[..|prefixBlocks|] == prefixBlocks;
    var truncated := XmlTag(body, IS_TRUNCATED);
    return CivilTime.Value(Listing(objects, prefixes, XmlTag(body, TOKEN),
                                   truncated.Some? && LowerAscii(truncated.value) == "true"));
  }

  lemma {:induction false} ObjectsOverflow(blocks: seq<string>, i: nat)
    requires i <= |blocks| && ObjectsOf(blocks[..i]).Overflow?
    ensures ObjectsOf(blocks).Overflow?
    decreases |blocks| - i
  {
    if i < |blocks| {
      assert blocks[..i + 1][..i] == blocks[..i];
      ObjectsOverflow(blocks, i + 1);
    } else {
      assert blocks[..i] == blocks;
    }
  }

  // ----- tags and texts -----

  datatype Token = Tag(name: string) | Text(text: string) {
    predicate Clean() {
      match this
      case Tag(n) => '<' !in n && '>' !in n
      case Text(t) => '<' !in t
    }

    function Render(): string {
      match this
      case Tag(n) => "<" + n + ">"
      case Text(t) => t
    }
  }

  predicate AllClean(toks: seq<Token>) {
    forall t <- toks :: t.Clean()
  }

  function Flat(toks: seq<Token>): string {
    if toks == [] then "" else toks[0].Render() + Flat(toks[1..])
  }

  lemma {:induction false} FlatAppend(a: seq<Token>, b: seq<Token>)
    ensures Flat(a + b) == Flat(a) + Flat(b)
  {
    if a == [] {
      assert a + b == b;
    } else {
      assert (a + b)[1..] == a[1..] + b;
      FlatAppend(a[1..], b);
    }
  }

  /** A different tag is not mistaken for the one looked for. */
  lemma {:induction false} TagsDiffer(m: string, n: string, rest: string)
    requires '>' !in m && '>' !in n && m != n
    ensures !OccursAt("<" + m + ">" + rest, Open(n), 0)
  {
    var s, pat := "<" + m + ">" + rest, Open(n);
    if |m| < |n| {
      assert pat[|m| + 1] == n[|m|] && n[|m|] in n;
      Mismatch(s, pat, 0, |m| + 1);
    } else if |n| < |m| {
      assert s[|n| + 1] == m[|n|] && m[|n|] in m;
      Mismatch(s, pat, 0, |n| + 1);
    } else {
      var k :| 0 <= k < |m| && m[k] != n[k];
      assert s[k + 1] == m[k] && pat[k + 1] == n[k];
      Mismatch(s, pat, 0, k + 1);
    }
  }

  lemma {:induction false} NoTagInside(t: Token, n: string, rest: string, j: nat)
    requires t.Clean() && Tag(n).Clean() && t != Tag(n) && j < |t.Render()|
    ensures !OccursAt(t.Render() + rest, Open(n), j)
  {
    var s := t.Render() + rest;
    assert s[j] == t.Render()[j];
    match t
    case Text(text) =>
      assert text[j] in text;
      Mismatch(s, Open(n), j, 0);
    case Tag(m) =>
      if j == 0 {
        TagsDiffer(m, n, rest);
      } else {
        assert j <= |m| ==> s[j] == m[j - 1] && m[j - 1] in m;
        Mismatch(s, Open(n), j, 0);
      }
  }

  /** No occurrence of a tag starts inside tokens that lack it. */
  lemma {:induction false} NoEarlyTag(toks: seq<Token>, n: string, rest: string, j: nat)
    requires AllClean(toks) && Tag(n).Clean() && Tag(n) !in toks
    requires j < |Flat(toks)|
    ensures !OccursAt(Flat(toks) + rest, Open(n), j)
    decreases |toks|
  {
    var head, tail := toks[0].Render(), toks[1..];
    assert Flat(toks) + rest == head + (Flat(tail) + rest);
    if j < |head| {
      NoTagInside(toks[0], n, Flat(tail) + rest, j);
    } else {
      OccursInSuffix(head, Flat(tail) + rest, Open(n), j);
      NoEarlyTag(tail, n, rest, j - |head|);
    }
  }

  /** A search for a tag finds the first token equal to it. */
  lemma {:induction false} FindTag(pre: seq<Token>, n: string, post: seq<Token>)
    requires AllClean(pre) && Tag(n).Clean() && Tag(n) !in pre
    ensures IndexOf(Flat(pre + [Tag(n)] + post), Open(n), 0) == |Flat(pre)|
  {
    var s := Flat(pre + [Tag(n)] + post);
    assert pre + [Tag(n)] + post == pre + ([Tag(n)] + post);
    FlatAppend(pre, [Tag(n)] + post);
    assert ([Tag(n)] + post)[1..] == post;
    assert s == Flat(pre) + (Open(n) + Flat(post));
    assert s[|Flat(pre)|..|Flat(pre)| + |Open(n)|] == Open(n);
    forall j: nat | j < |Flat(pre)|
      ensures !OccursAt(s, Open(n), j)
    {
      NoEarlyTag(pre, n, Open(n) + Flat(post), j);
    }
    IndexOfIs(s, Open(n), 0, |Flat(pre)|);
  }

  lemma {:induction false} MissTag(toks: seq<Token>, n: string)
    requires AllClean(toks) && Tag(n).Clean() && Tag(n) !in toks
    ensures IndexOf(Flat(toks), Open(n), 0) < 0
  {
    var s := Flat(toks);
    assert s + "" == s;
    IndexOfFinds(s, Open(n), 0);
    var r := IndexOf(s, Open(n), 0);
    if r >= 0 {
      NoEarlyTag(toks, n, "", r);
    }
  }

  /** `pre`, then an element `n` around `inner`, then `post`. */
  function Element(pre: seq<Token>, n: string, inner: seq<Token>, post: seq<Token>): seq<Token> {
    pre + [Tag(n)] + (inner + [Tag("/" + n)] + post)
  }

  predicate IsFirstElement(pre: seq<Token>, n: string, inner: seq<Token>) {
    AllClean(pre) && AllClean(inner) && Tag(n).Clean() && Tag(n) !in pre && Tag("/" + n) !in inner
  }

  lemma {:induction false} FlatOne(t: Token)
    ensures Flat([t]) == t.Render()
  {
    assert Flat([t]) == t.Render() + Flat([]);
  }

  lemma {:induction false} FlatElement(pre: seq<Token>, n: string, inner: seq<Token>, post: seq<Token>)
    ensures Flat(Element(pre, n, inner, post)) == Flat(pre) + Open(n) + Flat(inner + [Tag("/" + n)] + post)
    ensures Flat(inner + [Tag("/" + n)] + post) == Flat(inner) + Close(n) + Flat(post)
  {
    hide Flat, Token.Render;
    FlatAppend(pre + [Tag(n)], inner + [Tag("/" + n)] + post);
    FlatAppend(pre, [Tag(n)]);
    FlatTag(n);
    FlatAppend(inner + [Tag("/" + n)], post);
    FlatAppend(inner, [Tag("/" + n)]);
    FlatTag("/" + n);
    assert Open("/" + n) == Close(n);
  }

  lemma {:induction false} FlatTag(n: string)
    ensures Flat([Tag(n)]) == Open(n)
  {
    FlatOne(Tag(n));
  }

  /** The leaf reader and the scanner both cut the first element out whole. */
  lemma {:induction false} CutElement(pre: seq<Token>, n: string, inner: seq<Token>, post: seq<Token>)
    requires IsFirstElement(pre, n, inner)
    ensures XmlTag(Flat(Element(pre, n, inner, post)), n) == Some(Flat(inner))
    ensures Blocks(Flat(Element(pre, n, inner, post)), n) == [Flat(inner)] + Blocks(Flat(post), n)
  {
    hide IndexOf, OccursAt, Flat, AllBetween, Between, Element;
    FlatElement(pre, n, inner, post);
    FindElement(pre, n, inner, post);
    FirstBetween(Flat(pre) + Open(n), Open(n), Flat(inner), Close(n), Flat(post), Flat(Element(pre, n, inner, post)));
  }

  lemma {:induction false} FindElement(pre: seq<Token>, n: string, inner: seq<Token>, post: seq<Token>)
    requires IsFirstElement(pre, n, inner)
    ensures IndexOf(Flat(Element(pre, n, inner, post)), Open(n), 0) == |Flat(pre)|
    ensures IndexOf(Flat(inner + [Tag("/" + n)] + post), Close(n), 0) == |Flat(inner)|
  {
    hide IndexOf, OccursAt, Flat;
    FindTag(pre, n, inner + [Tag("/" + n)] + post);
    FindTag(inner, "/" + n, post);
    assert Open("/" + n) == Close(n);
  }

  // ----- a rendered response -----

  /** A name of an opening tag. */
  predicate IsName(n: string) {
    n != "" && n[0] != '/' && Tag(n).Clean()
  }

  /** What stands inside an element: a leaf with its text, or anything else,
      such as an element with children. */
  datatype Leaf = Leaf(tag: string, text: string) | Other(tokens: seq<Token>) {
    predicate Clean() {
      match this
      case Leaf(t, x) => IsName(t) && '<' !in x
      case Other(ts) => AllClean(ts)
    }

    /** Has the tag, or contains it. */
    predicate Bears(n: string) {
      match this
      case Leaf(t, _) => t == n
      case Other(ts) => Tag(n) in ts || Tag("/" + n) in ts
    }
  }

  predicate LeavesClean(leaves: seq<Leaf>) {
    forall leaf <- leaves :: leaf.Clean()
  }

  function LeafTokens(leaf: Leaf): seq<Token> {
    match leaf
    case Leaf(t, x) => [Tag(t), Text(x), Tag("/" + t)]
    case Other(ts) => ts
  }

  function LeavesTokens(leaves: seq<Leaf>): seq<Token> {
    if leaves == [] then [] else LeafTokens(leaves[0]) + LeavesTokens(leaves[1..])
  }

  lemma {:induction false} NamesDiffer(m: string, n: string)
    requires IsName(m) && IsName(n) && m != n
    ensures "/" + m != n && m != "/" + n && "/" + m != "/" + n
    ensures Tag("/" + n).Clean()
  {
    assert ("/" + m)[1..] == m && ("/" + n)[1..] == n;
    assert ("/" + m)[0] == '/' && ("/" + n)[0] == '/';
  }

  lemma {:induction false} LeafTokensAre(leaf: Leaf, m: string)
    requires leaf.Clean() && IsName(m)
    ensures AllClean(LeafTokens(leaf))
    ensures !leaf.Bears(m) ==> Tag(m) !in LeafTokens(leaf) && Tag("/" + m) !in LeafTokens(leaf)
  {
    if leaf.Leaf? && leaf.tag != m {
      NamesDiffer(leaf.tag, m);
    }
  }

  lemma {:induction false} LeavesTokensAre(leaves: seq<Leaf>, m: string)
    requires LeavesClean(leaves) && IsName(m)
    ensures AllClean(LeavesTokens(leaves))
    ensures (forall leaf <- leaves :: !leaf.Bears(m)) ==>
              Tag(m) !in LeavesTokens(leaves) && Tag("/" + m) !in LeavesTokens(leaves)
  {
    if leaves != [] {
      hide LeafTokens;
      assert leaves[0].Clean();
      LeafTokensAre(leaves[0], m);
      LeavesTokensAre(leaves[1..], m);
    }
  }

  /** The text of the first leaf with this tag. */
  function Lookup(leaves: seq<Leaf>, tag: string): Option<string> {
    if leaves == [] then None
    else if leaves[0].Leaf? && leaves[0].tag == tag then Some(leaves[0].text)
    else Lookup(leaves[1..], tag)
  }

  lemma {:induction false} XmlTagOfLeaf(pre: seq<Token>, leaf: Leaf, post: seq<Token>)
    requires leaf.Leaf? && AllClean(pre) && leaf.Clean() && Tag(leaf.tag) !in pre
    ensures XmlTag(Flat(pre + (LeafTokens(leaf) + post)), leaf.tag) == Some(leaf.text)
  {
    hide XmlTag, Blocks, Flat;
    var inner := [Text(leaf.text)];
    assert pre + (LeafTokens(leaf) + post) == Element(pre, leaf.tag, inner, post);
    CutElement(pre, leaf.tag, inner, post);
    FlatOne(Text(leaf.text));
  }

  /** The name is a leaf's or nowhere in the list. */
  predicate OnlyLeaves(leaves: seq<Leaf>, n: string) {
    forall leaf <- leaves :: leaf.Other? ==> !leaf.Bears(n)
  }

  /** Reading a leaf out of a document finds the first leaf with its tag. */
  lemma {:induction false} XmlTagInLeaves(pre: seq<Token>, leaves: seq<Leaf>, post: seq<Token>, n: string)
    requires AllClean(pre) && LeavesClean(leaves) && Tag(n) !in pre && IsName(n)
    requires Lookup(leaves, n).Some? && OnlyLeaves(leaves, n)
    ensures XmlTag(Flat(pre + LeavesTokens(leaves) + post), n) == Lookup(leaves, n)
    decreases |leaves|
  {
    hide XmlTag, LeafTokens, Flat;
    var leaf := leaves[0];
    var rest := LeavesTokens(leaves[1..]);
    assert leaf.Clean();
    if leaf.Leaf? && leaf.tag == n {
      assert pre + LeavesTokens(leaves) + post == pre + (LeafTokens(leaf) + (rest + post));
      XmlTagOfLeaf(pre, leaf, rest + post);
    } else {
      var pre' := pre + LeafTokens(leaf);
      assert pre' + rest + post == pre + LeavesTokens(leaves) + post;
      LeafTokensAre(leaf, n);
      XmlTagInLeaves(pre', leaves[1..], post, n);
    }
  }

  lemma {:induction false} LookupMeansPresent(leaves: seq<Leaf>, n: string)
    requires LeavesClean(leaves) && IsName(n) && OnlyLeaves(leaves, n)
    ensures Lookup(leaves, n).None? ==> forall leaf <- leaves :: !leaf.Bears(n)
  {
    if leaves != [] {
      LookupMeansPresent(leaves[1..], n);
    }
  }

  /** Reading a leaf out of a list of leaves is a lookup in the list. */
  lemma {:induction false} XmlTagOfLeaves(leaves: seq<Leaf>, n: string)
    requires LeavesClean(leaves) && IsName(n) && OnlyLeaves(leaves, n)
    ensures XmlTag(Flat(LeavesTokens(leaves)), n) == Lookup(leaves, n)
  {
    hide Flat, LeavesTokens, LeafTokens;
    if Lookup(leaves, n).Some? {
      assert [] + LeavesTokens(leaves) + [] == LeavesTokens(leaves);
      XmlTagInLeaves([], leaves, [], n);
    } else {
      LookupMeansPresent(leaves, n);
      LeavesTokensAre(leaves, n);
      MissTag(LeavesTokens(leaves), n);
    }
  }

  function OptionalLeaf(tag: string, text: Option<string>): seq<Leaf> {
    match text
    case None => []
    case Some(t) => [Leaf(tag, t)]
  }

  predicate PlainText(s: string) {
    '<' !in s
  }

  predicate PlainOption(s: Option<string>) {
    s.Some? ==> PlainText(s.value)
  }

  predicate PlainObject(o: ObjectInfo) {
    && PlainText(o.key) && PlainOption(o.etag) && PlainOption(o.storageClass)
    && o.size < U64_BOUND
    && (o.etag.Some? ==> IsTrimmed(o.etag.value))
    && (o.lastModified.Some? ==> o.lastModified.value <= CivilTime.LAST_SECOND)
  }

  /** What the renderer needs of a listing: no markup inside texts, no quote
      at either end of an ETag, numbers that fit. */
  predicate Plain(l: Listing) {
    && (forall o <- l.objects :: PlainObject(o))
    && (forall p <- l.commonPrefixes :: PlainText(p))
    && PlainOption(l.nextContinuationToken)
  }

  lemma {:induction false} NamesAreNames()
    ensures IsName(CONTENTS) && IsName(COMMON_PREFIXES) && IsName(IS_TRUNCATED) && IsName(TOKEN)
    ensures IsName(KEY) && IsName(SIZE) && IsName(ETAG) && IsName(LAST_MODIFIED)
    ensures IsName(STORAGE_CLASS) && IsName(PREFIX)
  {
    hide IsName;
    LettersAreName(CONTENTS);
    LettersAreName(COMMON_PREFIXES);
    LettersAreName(IS_TRUNCATED);
    LettersAreName(TOKEN);
    LettersAreName(KEY);
    LettersAreName(SIZE);
    LettersAreName(ETAG);
    LettersAreName(LAST_MODIFIED);
    LettersAreName(STORAGE_CLASS);
    LettersAreName(PREFIX);
  }

  lemma {:induction false} LettersAreName(n: string)
    requires n != "" && forall i :: 0 <= i < |n| ==> 'A' <= n[i]
    ensures IsName(n)
  {
  }

  lemma {:induction false} NamesAreDistinct()
    ensures CONTENTS !in {KEY, SIZE, ETAG, LAST_MODIFIED, STORAGE_CLASS, PREFIX, IS_TRUNCATED, TOKEN, COMMON_PREFIXES}
    ensures COMMON_PREFIXES !in {KEY, SIZE, ETAG, LAST_MODIFIED, STORAGE_CLASS, PREFIX, IS_TRUNCATED, TOKEN}
    ensures IS_TRUNCATED !in {KEY, SIZE, ETAG, LAST_MODIFIED, STORAGE_CLASS, PREFIX, TOKEN}
    ensures TOKEN !in {KEY, SIZE, ETAG, LAST_MODIFIED, STORAGE_CLASS, PREFIX}
    ensures KEY !in {SIZE, ETAG, LAST_MODIFIED, STORAGE_CLASS} && SIZE !in {ETAG, LAST_MODIFIED, STORAGE_CLASS}
    ensures ETAG !in {LAST_MODIFIED, STORAGE_CLASS} && LAST_MODIFIED != STORAGE_CLASS
  {
    assert |CONTENTS| == 8 && |COMMON_PREFIXES| == 14 && |IS_TRUNCATED| == 11 && |TOKEN| == 21 && |KEY| == 3;
    assert |SIZE| == 4 && |ETAG| == 4 && |LAST_MODIFIED| == 12 && |STORAGE_CLASS| == 12 && |PREFIX| == 6;
    assert SIZE[0] != ETAG[0] && LAST_MODIFIED[0] != STORAGE_CLASS[0];
  }

  function StampText(o: ObjectInfo): Option<string>
    requires PlainObject(o)
  {
    if o.lastModified.Some? then Some(CivilTime.PrintIso(o.lastModified.value, ".000")) else None
  }

  function EtagText(o: ObjectInfo): Option<string> {
    if o.etag.Some? then Some("\"" + o.etag.value + "\"") else None
  }

  function ObjectLeaves(o: ObjectInfo): seq<Leaf>
    requires PlainObject(o)
  {
    [Leaf(KEY, o.key)] + OptionalLeaf(LAST_MODIFIED, StampText(o)) + OptionalLeaf(ETAG, EtagText(o))
    + [Leaf(SIZE, Decimal(o.size))] + OptionalLeaf(STORAGE_CLASS, o.storageClass)
  }

  function FlagText(truncated: bool): string {
    if truncated then "true" else "false"
  }

  function FlagLeaves(l: Listing): seq<Leaf> {
    [Leaf(IS_TRUNCATED, FlagText(l.isTruncated))] + OptionalLeaf(TOKEN, l.nextContinuationToken)
  }

  /** A sequence of elements named `n`, one per list of leaves. */
  function Repeated(n: string, items: seq<seq<Leaf>>): seq<Token> {
    if items == [] then []
    else [Tag(n)] + LeavesTokens(items[0]) + [Tag("/" + n)] + Repeated(n, items[1..])
  }

  const FIELDS := {KEY, SIZE, ETAG, LAST_MODIFIED, STORAGE_CLASS}

  const TOP := {CONTENTS, COMMON_PREFIXES, IS_TRUNCATED, TOKEN}

  /** What may stand inside an element: nothing with a tag of the top level. */
  predicate Inner(leaves: seq<Leaf>) {
    LeavesClean(leaves) && forall leaf <- leaves, n <- TOP :: !leaf.Bears(n)
  }

  ghost predicate IsStampOf(text: Option<string>, t: Option<nat>) {
    match t
    case None => text == None
    case Some(second) =>
      && second <= CivilTime.LAST_SECOND
      && exists fraction | CivilTime.IsFraction(fraction) :: text == Some(CivilTime.PrintIso(second, fraction))
  }

  predicate AllQuotes(s: string) {
    forall i :: 0 <= i < |s| ==> s[i] == '"'
  }

  /** An ETag with any quotes around it, or none. */
  ghost predicate IsEtagOf(text: Option<string>, etag: Option<string>) {
    match etag
    case None => text == None
    case Some(e) =>
      && IsTrimmed(e)
      && exists q, r | AllQuotes(q) && AllQuotes(r) :: text == Some(q + e + r)
  }

  /** Decimal digits of `n`, with or without a plus sign. */
  ghost predicate IsNumberText(t: string, n: nat) {
    exists digits | digits != "" && AllDigits(digits) && DigitsValue(digits) == n :: t == digits || t == "+" + digits
  }

  /** The text is a number of 64 bits, or there is no such number and the size is 0. */
  ghost predicate IsSizeOf(text: Option<string>, size: nat) {
    match text
    case None => size == 0
    case Some(t) =>
      || (size < 0x1_0000_0000_0000_0000 && IsNumberText(t, size))
      || (size == 0 && forall n: nat | n < 0x1_0000_0000_0000_0000 :: !IsNumberText(t, n))
  }

  predicate IsKeyOf(text: Option<string>, key: string) {
    if text.Some? then text.value == key else key == ""
  }

  /** The leaves say what the object is, in any order and with any others, and
      with any other elements among them. */
  ghost predicate Describes(leaves: seq<Leaf>, o: ObjectInfo) {
    && Inner(leaves)
    && (forall n <- FIELDS :: OnlyLeaves(leaves, n))
    && IsKeyOf(Lookup(leaves, "Key"), o.key)
    && IsSizeOf(Lookup(leaves, "Size"), o.size)
    && IsEtagOf(Lookup(leaves, "ETag"), o.etag)
    && IsStampOf(Lookup(leaves, "LastModified"), o.lastModified)
    && Lookup(leaves, "StorageClass") == o.storageClass
  }

  predicate NamesPrefix(leaves: seq<Leaf>, prefix: string) {
    Inner(leaves) && OnlyLeaves(leaves, "Prefix") && Lookup(leaves, "Prefix") == Some(prefix)
  }

  /** The elements that name a prefix name these, in order; others name none. */
  predicate NamePrefixes(items: seq<seq<Leaf>>, prefixes: seq<string>)
    decreases |items|
  {
    if items == [] then prefixes == []
    else
      var n := |items| - 1;
      || (NamesNone(items[n]) && NamePrefixes(items[..n], prefixes))
      || (prefixes != [] && NamesPrefix(items[n], prefixes[|prefixes| - 1])
          && NamePrefixes(items[..n], prefixes[..|prefixes| - 1]))
  }

  predicate NamesNone(leaves: seq<Leaf>) {
    Inner(leaves) && forall leaf <- leaves :: !leaf.Bears("Prefix")
  }

  /** The word "true" in any case. */
  predicate SaysTrue(t: string) {
    |t| == 4 && t[0] in {'t', 'T'} && t[1] in {'r', 'R'} && t[2] in {'u', 'U'} && t[3] in {'e', 'E'}
  }

  predicate SaysFlags(leaves: seq<Leaf>, l: Listing) {
    && LeavesClean(leaves) && (forall leaf <- leaves, n <- {CONTENTS, COMMON_PREFIXES} :: !leaf.Bears(n))
    && OnlyLeaves(leaves, IS_TRUNCATED) && OnlyLeaves(leaves, TOKEN)
    && (l.isTruncated <==> Lookup(leaves, "IsTruncated").Some? && SaysTrue(Lookup(leaves, "IsTruncated").value))
    && Lookup(leaves, "NextContinuationToken") == l.nextContinuationToken
  }

  /** How a response may be written: declarations, the root tag, the bucket's
      name, counts and so on, then the flags, the objects and the prefixes. */
  datatype Layout = Layout(
    before: seq<Token>, flags: seq<Leaf>, objects: seq<seq<Leaf>>, prefixes: seq<seq<Leaf>>, after: seq<Token>) {
    predicate Neutral() {
      && AllClean(before) && AllClean(after)
      && forall n <- TOP :: Tag(n) !in before && Tag(n) !in after
    }

    ghost predicate Says(l: Listing) {
      && Neutral() && SaysFlags(flags, l)
      && |objects| == |l.objects| && (forall i :: 0 <= i < |objects| ==> Describes(objects[i], l.objects[i]))
      && NamePrefixes(prefixes, l.commonPrefixes)
    }

    function Document(): seq<Token> {
      before + LeavesTokens(flags) + (Repeated("Contents", objects) + (Repeated("CommonPrefixes", prefixes) + after))
    }
  }

  function Texts(items: seq<seq<Leaf>>): (r: seq<string>)
    ensures |r| == |items|
    ensures forall i :: 0 <= i < |r| ==> r[i] == Flat(LeavesTokens(items[i]))
  {
    seq(|items|, i requires 0 <= i < |items| => Flat(LeavesTokens(items[i])))
  }

  predicate ItemsFree(items: seq<seq<Leaf>>, n: string) {
    forall item <- items :: LeavesClean(item) && forall leaf <- item :: !leaf.Bears(n)
  }

  lemma {:induction false} RepeatedIsClean(n: string, items: seq<seq<Leaf>>, m: string)
    requires IsName(n) && IsName(m) && m != n && ItemsFree(items, m)
    ensures AllClean(Repeated(n, items)) && Tag(m) !in Repeated(n, items)
  {
    if items != [] {
      hide LeavesTokens;
      assert items[0] in items;
      assert forall item <- items[1..] :: item in items;
      LeavesTokensAre(items[0], m);
      NamesDiffer(m, n);
      RepeatedIsClean(n, items[1..], m);
    }
  }

  /** The scanner returns one block per repeated element, in order. */
  lemma {:induction false} BlocksOfRepeated(pre: seq<Token>, n: string, items: seq<seq<Leaf>>, post: seq<Token>)
    requires AllClean(pre) && AllClean(post) && IsName(n) && Tag(n) !in pre && Tag(n) !in post
    requires ItemsFree(items, n)
    ensures Blocks(Flat(pre + Repeated(n, items) + post), n) == Texts(items)
    decreases |items|
  {
    hide Flat, LeavesTokens, Blocks, XmlTag, Texts, Element, Repeated;
    if items == [] {
      NothingRepeated(pre, n, post);
      CleanAppend(pre, post);
      NoBlocks(pre + post, n);
    } else {
      var inner := LeavesTokens(items[0]);
      var rest := Repeated(n, items[1..]) + post;
      assert items[0] in items;
      assert forall item <- items[1..] :: item in items;
      RepeatedStep(pre, n, items, post);
      LeavesTokensAre(items[0], n);
      CutElement(pre, n, inner, rest);
      NothingBefore(Repeated(n, items[1..]), post);
      BlocksOfRepeated([], n, items[1..], post);
      TextsHead(items);
    }
  }

  lemma {:induction false} NothingRepeated(pre: seq<Token>, n: string, post: seq<Token>)
    ensures pre + Repeated(n, []) + post == pre + post
  {
  }

  lemma {:induction false} NothingBefore(a: seq<Token>, b: seq<Token>)
    ensures [] + a + b == a + b
  {
  }

  lemma {:induction false} RepeatedStep(pre: seq<Token>, n: string, items: seq<seq<Leaf>>, post: seq<Token>)
    requires items != []
    ensures pre + Repeated(n, items) + post == Element(pre, n, LeavesTokens(items[0]), Repeated(n, items[1..]) + post)
  {
    hide LeavesTokens;
  }

  lemma {:induction false} TextsHead(items: seq<seq<Leaf>>)
    requires items != []
    ensures Texts(items) == [Flat(LeavesTokens(items[0]))] + Texts(items[1..])
  {
    hide Flat, LeavesTokens;
  }

  lemma {:induction false} NoBlocks(toks: seq<Token>, n: string)
    requires AllClean(toks) && IsName(n) && Tag(n) !in toks
    ensures Blocks(Flat(toks), n) == []
  {
    hide Flat, IndexOf;
    MissTag(toks, n);
  }

  /** No quote at either end. */
  predicate IsTrimmed(e: string) {
    e != "" ==> e[0] != '"' && e[|e| - 1] != '"'
  }

  /** Quotes on both sides go, and nothing else. */
  lemma {:induction false} TrimQuoted(q: string, e: string, r: string)
    requires AllQuotes(q) && IsTrimmed(e) && AllQuotes(r)
    ensures TrimQuotes(q + e + r) == e
  {
    var s := q + e + r;
    if q != "" {
      assert s[1..] == q[1..] + e + r;
      TrimQuoted(q[1..], e, r);
    } else if e == "" {
      assert s == r;
      QuotesVanish(r);
    } else {
      assert s == e + r && s[0] == e[0];
      TrimQuotedRight(e, r);
    }
  }

  lemma {:induction false} QuotesVanish(r: string)
    requires AllQuotes(r)
    ensures TrimQuotesLeft(r) == ""
  {
    if r != "" {
      QuotesVanish(r[1..]);
    }
  }

  lemma {:induction false} TrimQuotedRight(e: string, r: string)
    requires IsTrimmed(e) && AllQuotes(r)
    ensures TrimQuotesRight(e + r) == e
  {
    var s := e + r;
    if r == "" {
      assert s == e;
    } else {
      assert s[|s| - 1] == r[|r| - 1];
      assert s[..|s| - 1] == e + r[..|r| - 1];
      TrimQuotedRight(e, r[..|r| - 1]);
    }
  }

  lemma {:induction false} OptionalLeafClean(tag: string, text: Option<string>)
    requires IsName(tag) && PlainOption(text)
    ensures LeavesClean(OptionalLeaf(tag, text))
    ensures forall leaf <- OptionalLeaf(tag, text) :: leaf.Leaf? && leaf.tag == tag
  {
  }

  lemma {:induction false} StampTextPlain(o: ObjectInfo)
    requires PlainObject(o)
    ensures PlainOption(StampText(o))
  {
    hide CivilTime.PrintIso;
    if o.lastModified.Some? {
      CivilTime.IsoCharacters(o.lastModified.value, ".000");
    }
  }

  lemma {:induction false} ObjectLeavesClean(o: ObjectInfo)
    requires PlainObject(o)
    ensures LeavesClean(ObjectLeaves(o))
    ensures forall leaf <- ObjectLeaves(o) :: leaf.Leaf? && leaf.tag in FIELDS
  {
    hide CivilTime.PrintIso, Decimal, OptionalLeaf, StampText, IsName;
    NamesAreNames();
    StampTextPlain(o);
    OptionalLeafClean(LAST_MODIFIED, StampText(o));
    OptionalLeafClean(ETAG, EtagText(o));
    OptionalLeafClean(STORAGE_CLASS, o.storageClass);
  }

  lemma {:induction false} LookupSplit(a: seq<Leaf>, b: seq<Leaf>, tag: string)
    ensures Lookup(a + b, tag) == if Lookup(a, tag).Some? then Lookup(a, tag) else Lookup(b, tag)
  {
    if a == [] {
      assert a + b == b;
    } else {
      assert (a + b)[1..] == a[1..] + b;
      LookupSplit(a[1..], b, tag);
    }
  }

  lemma {:induction false} LookupOptional(tag: string, text: Option<string>, n: string)
    ensures Lookup(OptionalLeaf(tag, text), n) == if n == tag then text else None
  {
  }

  lemma {:induction false} LookupLeaf(leaf: Leaf, n: string)
    requires leaf.Leaf?
    ensures Lookup([leaf], n) == if n == leaf.tag then Some(leaf.text) else None
  {
  }

  lemma {:induction false} ObjectLookup(o: ObjectInfo, n: string)
    requires PlainObject(o)
    ensures Lookup(ObjectLeaves(o), n) ==
            if n == KEY then Some(o.key)
            else if n == LAST_MODIFIED then StampText(o)
            else if n == ETAG then EtagText(o)
            else if n == SIZE then Some(Decimal(o.size))
            else if n == STORAGE_CLASS then o.storageClass
            else None
  {
    hide Lookup, OptionalLeaf, StampText, EtagText, Decimal;
    NamesAreDistinct();
    var a, b, c := [Leaf(KEY, o.key)], OptionalLeaf(LAST_MODIFIED, StampText(o)), OptionalLeaf(ETAG, EtagText(o));
    var d, e := [Leaf(SIZE, Decimal(o.size))], OptionalLeaf(STORAGE_CLASS, o.storageClass);
    LookupSplit(a + b + c + d, e, n);
    LookupSplit(a + b + c, d, n);
    LookupSplit(a + b, c, n);
    LookupSplit(a, b, n);
    LookupLeaf(a[0], n);
    LookupLeaf(d[0], n);
    LookupOptional(LAST_MODIFIED, StampText(o), n);
    LookupOptional(ETAG, EtagText(o), n);
    LookupOptional(STORAGE_CLASS, o.storageClass, n);
  }

  lemma {:induction false} StampRoundTrip(text: Option<string>, t: Option<nat>)
    requires IsStampOf(text, t)
    ensures Stamp(text) == CivilTime.Value(t)
  {
    hide CivilTime.PrintIso, CivilTime.Iso8601ToEpoch;
    if t.Some? {
      var fraction :| CivilTime.IsFraction(fraction) && text == Some(CivilTime.PrintIso(t.value, fraction));
      CivilTime.IsoRoundTrip(t.value, fraction);
    }
  }

  lemma {:induction false} EtagIs(text: Option<string>, etag: Option<string>)
    requires IsEtagOf(text, etag)
    ensures etag == if text.Some? then Some(TrimQuotes(text.value)) else None
  {
    if etag.Some? {
      hide TrimQuotes;
      var q, r :| AllQuotes(q) && AllQuotes(r) && text == Some(q + etag.value + r);
      TrimQuoted(q, etag.value, r);
    }
  }

  lemma {:induction false} NumberTextParses(t: string, n: nat)
    requires IsNumberText(t, n) && n < U64_BOUND
    ensures ParseUnsigned(t, U64_BOUND) == Some(n)
  {
    var digits :| digits != "" && AllDigits(digits) && DigitsValue(digits) == n && (t == digits || t == "+" + digits);
    assert digits[0] in digits;
    assert t != digits ==> t[1..] == digits;
  }

  lemma {:induction false} ParsedIsNumberText(t: string)
    requires ParseUnsigned(t, U64_BOUND).Some?
    ensures IsNumberText(t, ParseUnsigned(t, U64_BOUND).value)
  {
    var digits := if t != "" && t[0] == '+' then t[1..] else t;
    assert t == digits || t == "+" + digits;
  }

  lemma {:induction false} SizeIs(text: Option<string>, size: nat)
    requires IsSizeOf(text, size)
    ensures var parsed := if text.Some? then ParseUnsigned(text.value, U64_BOUND) else None;
            size == if parsed.Some? then parsed.value else 0
  {
    hide IsNumberText, ParseUnsigned;
    if text.Some? {
      if size < U64_BOUND && IsNumberText(text.value, size) {
        NumberTextParses(text.value, size);
      } else if ParseUnsigned(text.value, U64_BOUND).Some? {
        ParsedIsNumberText(text.value);
      }
    }
  }

  /** Leaves that describe an object parse to it, whatever their order and
      whatever other leaves stand among them. */
  lemma {:induction false} ObjectRoundTrip(leaves: seq<Leaf>, o: ObjectInfo)
    requires Describes(leaves, o)
    ensures ObjectOf(Flat(LeavesTokens(leaves))) == CivilTime.Value(o)
  {
    hide XmlTag, Flat, LeavesTokens, Lookup, IsStampOf, Stamp, ParseUnsigned, TrimQuotes, IsName, IsEtagOf, IsSizeOf;
    NamesAreNames();
    XmlTagOfLeaves(leaves, KEY);
    XmlTagOfLeaves(leaves, SIZE);
    XmlTagOfLeaves(leaves, ETAG);
    XmlTagOfLeaves(leaves, LAST_MODIFIED);
    XmlTagOfLeaves(leaves, STORAGE_CLASS);
    SizeIs(Lookup(leaves, SIZE), o.size);
    EtagIs(Lookup(leaves, ETAG), o.etag);
    StampRoundTrip(Lookup(leaves, LAST_MODIFIED), o.lastModified);
  }

  lemma {:induction false} TextsStep(items: seq<seq<Leaf>>, n: nat)
    requires |items| == n + 1
    ensures Texts(items) == Texts(items[..n]) + [Flat(LeavesTokens(items[n]))]
  {
    hide Flat, LeavesTokens;
  }

  lemma {:induction false} ObjectsStep(blocks: seq<string>, block: string, objects: seq<ObjectInfo>, o: ObjectInfo)
    requires ObjectsOf(blocks) == CivilTime.Value(objects) && ObjectOf(block) == CivilTime.Value(o)
    ensures ObjectsOf(blocks + [block]) == CivilTime.Value(objects + [o])
  {
    hide ObjectOf;
    assert (blocks + [block])[..|blocks|] == blocks;
  }

  lemma {:induction false} ObjectsRoundTrip(items: seq<seq<Leaf>>, objects: seq<ObjectInfo>)
    requires |items| == |objects| && forall i :: 0 <= i < |items| ==> Describes(items[i], objects[i])
    ensures ObjectsOf(Texts(items)) == CivilTime.Value(objects)
    decreases |items|
  {
    hide ObjectOf, Flat, LeavesTokens, Describes, Texts;
    if objects != [] {
      hide ObjectsOf;
      var n := |objects| - 1;
      TextsStep(items, n);
      ObjectsRoundTrip(items[..n], objects[..n]);
      ObjectRoundTrip(items[n], objects[n]);
      ObjectsStep(Texts(items[..n]), Flat(LeavesTokens(items[n])), objects[..n], objects[n]);
      assert objects[..n] + [objects[n]] == objects;
    }
  }

  lemma {:induction false} PrefixesStep(blocks: seq<string>, block: string)
    ensures PrefixesOf(blocks + [block]) ==
            PrefixesOf(blocks) + if XmlTag(block, PREFIX).Some? then [XmlTag(block, PREFIX).value] else []
  {
    hide XmlTag;
    assert (blocks + [block])[..|blocks|] == blocks;
  }

  lemma {:induction false} NoPrefixRoundTrip(leaves: seq<Leaf>)
    requires NamesNone(leaves)
    ensures XmlTag(Flat(LeavesTokens(leaves)), PREFIX) == None
  {
    hide Flat, LeavesTokens, IsName, IndexOf, LeavesClean;
    NamesAreNames();
    LeavesTokensAre(leaves, PREFIX);
    MissTag(LeavesTokens(leaves), PREFIX);
  }

  lemma {:induction false} PrefixRoundTrip(leaves: seq<Leaf>, prefix: string)
    requires NamesPrefix(leaves, prefix)
    ensures XmlTag(Flat(LeavesTokens(leaves)), PREFIX) == Some(prefix)
  {
    hide XmlTag, Flat, LeavesTokens, IsName, Lookup, LeavesClean;
    NamesAreNames();
    XmlTagOfLeaves(leaves, PREFIX);
  }

  lemma {:induction false} PrefixesRoundTrip(items: seq<seq<Leaf>>, prefixes: seq<string>)
    requires NamePrefixes(items, prefixes)
    ensures PrefixesOf(Texts(items)) == prefixes
    decreases |items|
  {
    hide XmlTag, Flat, LeavesTokens, NamesPrefix, NamesNone, Texts;
    if items != [] {
      hide PrefixesOf;
      var n := |items| - 1;
      TextsStep(items, n);
      PrefixesStep(Texts(items[..n]), Flat(LeavesTokens(items[n])));
      if NamesNone(items[n]) && NamePrefixes(items[..n], prefixes) {
        NoPrefixRoundTrip(items[n]);
        PrefixesRoundTrip(items[..n], prefixes);
      } else {
        var m := |prefixes| - 1;
        PrefixRoundTrip(items[n], prefixes[m]);
        PrefixesRoundTrip(items[..n], prefixes[..m]);
        assert prefixes[..m] + [prefixes[m]] == prefixes;
      }
    }
  }

  lemma {:induction false} NamedAreInner(items: seq<seq<Leaf>>, prefixes: seq<string>, item: seq<Leaf>)
    requires NamePrefixes(items, prefixes) && item in items
    ensures Inner(item)
    decreases |items|
  {
    hide Inner, Lookup;
    var n := |items| - 1;
    if item != items[n] {
      assert item in items[..n];
      if NamePrefixes(items[..n], prefixes) {
        NamedAreInner(items[..n], prefixes, item);
      } else {
        NamedAreInner(items[..n], prefixes[..|prefixes| - 1], item);
      }
    }
  }

  lemma {:induction false} ItemsAreFree(f: Layout, l: Listing, n: string)
    requires f.Says(l) && n in TOP
    ensures ItemsFree(f.objects, n) && ItemsFree(f.prefixes, n)
  {
    hide Lookup, IsStampOf, LeavesClean, IsEtagOf, IsSizeOf, NamePrefixes;
    forall item | item in f.objects
      ensures LeavesClean(item) && forall leaf <- item :: !leaf.Bears(n)
    {
      var i :| 0 <= i < |f.objects| && item == f.objects[i];
      assert Describes(f.objects[i], l.objects[i]);
    }
    forall item | item in f.prefixes
      ensures LeavesClean(item) && forall leaf <- item :: !leaf.Bears(n)
    {
      NamedAreInner(f.prefixes, l.commonPrefixes, item);
    }
  }

  /** The parts of a document other than the elements named `n` lack its tag. */
  lemma {:induction false} PartsAreFree(f: Layout, l: Listing, n: string)
    requires f.Says(l) && n in TOP
    ensures IsName(n) && ItemsFree(f.objects, n) && ItemsFree(f.prefixes, n)
    ensures AllClean(f.before) && AllClean(f.after) && Tag(n) !in f.before && Tag(n) !in f.after
    ensures AllClean(LeavesTokens(f.flags))
    ensures n in {CONTENTS, COMMON_PREFIXES} ==> Tag(n) !in LeavesTokens(f.flags)
    ensures n != CONTENTS ==> AllClean(Repeated(CONTENTS, f.objects)) && Tag(n) !in Repeated(CONTENTS, f.objects)
    ensures n != COMMON_PREFIXES ==>
              AllClean(Repeated(COMMON_PREFIXES, f.prefixes)) && Tag(n) !in Repeated(COMMON_PREFIXES, f.prefixes)
  {
    hide IsName, LeavesTokens, Repeated, ItemsFree, Describes, NamePrefixes, Lookup, LeavesClean;
    NamesAreNames();
    ItemsAreFree(f, l, n);
    LeavesTokensAre(f.flags, n);
    if n != CONTENTS {
      RepeatedIsClean(CONTENTS, f.objects, n);
    }
    if n != COMMON_PREFIXES {
      RepeatedIsClean(COMMON_PREFIXES, f.prefixes, n);
    }
  }

  lemma {:induction false} DocumentBlocks(f: Layout, l: Listing)
    requires f.Says(l)
    ensures Blocks(Flat(f.Document()), CONTENTS) == Texts(f.objects)
    ensures Blocks(Flat(f.Document()), COMMON_PREFIXES) == Texts(f.prefixes)
  {
    hide IsName, LeavesTokens, Repeated, ItemsFree, Blocks, Flat, Texts, AllClean, Layout.Says;
    NamesAreDistinct();
    var flags := LeavesTokens(f.flags);
    var objects := Repeated(CONTENTS, f.objects);
    var prefixes := Repeated(COMMON_PREFIXES, f.prefixes);
    PartsAreFree(f, l, CONTENTS);
    PartsAreFree(f, l, COMMON_PREFIXES);
    CleanAppend(f.before, flags);
    CleanAppend(prefixes, f.after);
    assert f.Document() == (f.before + flags) + objects + (prefixes + f.after);
    BlocksOfRepeated(f.before + flags, CONTENTS, f.objects, prefixes + f.after);
    CleanAppend(f.before + flags, objects);
    assert f.Document() == (f.before + flags + objects) + prefixes + f.after;
    BlocksOfRepeated(f.before + flags + objects, COMMON_PREFIXES, f.prefixes, f.after);
  }

  lemma {:induction false} CleanAppend(a: seq<Token>, b: seq<Token>)
    requires AllClean(a) && AllClean(b)
    ensures AllClean(a + b)
  {
  }

  lemma {:induction false} SaysClean(f: Layout, l: Listing)
    requires f.Says(l)
    ensures LeavesClean(f.flags) && OnlyLeaves(f.flags, IS_TRUNCATED) && OnlyLeaves(f.flags, TOKEN)
  {
  }

  lemma {:induction false} DocumentFlag(f: Layout, l: Listing, n: string)
    requires f.Says(l) && n in {IS_TRUNCATED, TOKEN}
    ensures XmlTag(Flat(f.Document()), n) == Lookup(f.flags, n)
  {
    hide IsName, LeavesTokens, Repeated, ItemsFree, Flat, AllClean, Layout.Says, Lookup, IndexOf, LeavesClean;
    NamesAreDistinct();
    PartsAreFree(f, l, n);
    SaysClean(f, l);
    var flags := LeavesTokens(f.flags);
    var objects := Repeated(CONTENTS, f.objects);
    var prefixes := Repeated(COMMON_PREFIXES, f.prefixes);
    var post := objects + (prefixes + f.after);
    if Lookup(f.flags, n).Some? {
      XmlTagInLeaves(f.before, f.flags, post, n);
    } else {
      LookupMeansPresent(f.flags, n);
      LeavesTokensAre(f.flags, n);
      CleanAppend(prefixes, f.after);
      CleanAppend(objects, prefixes + f.after);
      CleanAppend(f.before, flags);
      CleanAppend(f.before + flags, post);
      MissTag(f.Document(), n);
    }
  }

  /** Parsing a response that says a listing, in whatever layout, gives back its
      objects, common prefixes, continuation token and truncation flag, in
      order. */
  lemma {:induction false} ListingRoundTrip(f: Layout, l: Listing)
    requires f.Says(l)
    ensures ListingOf(Flat(f.Document())) == CivilTime.Value(l)
  {
    hide Blocks, XmlTag, Texts, ObjectsOf, PrefixesOf, Lookup, LowerAscii, Flat, LeavesClean, Describes;
    hide Layout.Neutral, Layout.Document, NamePrefixes, SaysTrue;
    DocumentBlocks(f, l);
    ObjectsRoundTrip(f.objects, l.objects);
    PrefixesRoundTrip(f.prefixes, l.commonPrefixes);
    DocumentFlag(f, l, IS_TRUNCATED);
    DocumentFlag(f, l, TOKEN);
    if Lookup(f.flags, IS_TRUNCATED).Some? {
      LowerIsTrue(Lookup(f.flags, IS_TRUNCATED).value);
    }
  }

  lemma {:induction false} LowerLength(t: string)
    ensures |LowerAscii(t)| == |t|
    ensures forall i :: 0 <= i < |t| ==>
              LowerAscii(t)[i] == if 'A' <= t[i] <= 'Z' then (t[i] as int + 32) as char else t[i]
  {
    if t != "" {
      LowerLength(t[1..]);
    }
  }

  lemma {:induction false} LowerIsTrue(t: string)
    ensures LowerAscii(t) == "true" <==> SaysTrue(t)
  {
    hide LowerAscii;
    LowerLength(t);
    var l := LowerAscii(t);
    assert l == "true" <==> |l| == 4 && l[0] == 't' && l[1] == 'r' && l[2] == 'u' && l[3] == 'e';
  }

  // ----- every plain listing can be written -----

  lemma {:induction false} FlagLeavesAre(l: Listing)
    requires Plain(l)
    ensures SaysFlags(FlagLeaves(l), l)
  {
    hide Lookup, OptionalLeaf, IsName;
    NamesAreNames();
    NamesAreDistinct();
    var a := Leaf(IS_TRUNCATED, FlagText(l.isTruncated));
    OptionalLeafClean(TOKEN, l.nextContinuationToken);
    forall n
      ensures Lookup(FlagLeaves(l), n) ==
              if n == IS_TRUNCATED then Some(a.text) else if n == TOKEN then l.nextContinuationToken else None
    {
      LookupSplit([a], OptionalLeaf(TOKEN, l.nextContinuationToken), n);
      LookupLeaf(a, n);
      LookupOptional(TOKEN, l.nextContinuationToken, n);
    }
  }

  lemma {:induction false} NumberIsText(n: nat)
    requires n < U64_BOUND
    ensures IsSizeOf(Some(Decimal(n)), n)
  {
    DecimalValue(n);
  }

  lemma {:induction false} EtagTextIs(o: ObjectInfo)
    requires PlainObject(o)
    ensures IsEtagOf(EtagText(o), o.etag)
  {
    assert AllQuotes("\"");
  }

  lemma {:induction false} ObjectLeavesDescribe(o: ObjectInfo)
    requires PlainObject(o)
    ensures Describes(ObjectLeaves(o), o)
  {
    hide ObjectLeaves, Lookup, Decimal, EtagText, LeavesClean, IsEtagOf, IsSizeOf, CivilTime.PrintIso, PlainText;
    NamesAreDistinct();
    NumberIsText(o.size);
    EtagTextIs(o);
    ObjectLeavesClean(o);
    ObjectLookup(o, KEY);
    ObjectLookup(o, SIZE);
    ObjectLookup(o, ETAG);
    ObjectLookup(o, LAST_MODIFIED);
    ObjectLookup(o, STORAGE_CLASS);
    assert CivilTime.IsFraction(".000");
  }

  lemma {:induction false} PrefixLeafNames(p: string)
    requires PlainText(p)
    ensures NamesPrefix([Leaf(PREFIX, p)], p)
  {
    hide IsName;
    NamesAreNames();
    NamesAreDistinct();
  }

  function PrefixItems(prefixes: seq<string>): seq<seq<Leaf>> {
    if prefixes == [] then []
    else PrefixItems(prefixes[..|prefixes| - 1]) + [[Leaf(PREFIX, prefixes[|prefixes| - 1])]]
  }

  lemma {:induction false} PrefixItemsName(prefixes: seq<string>)
    requires forall p <- prefixes :: PlainText(p)
    ensures NamePrefixes(PrefixItems(prefixes), prefixes)
  {
    if prefixes != [] {
      hide NamesPrefix, NamesNone, PlainText;
      var n := |prefixes| - 1;
      PrefixItemsName(prefixes[..n]);
      PrefixLeafNames(prefixes[n]);
      var items := PrefixItems(prefixes);
      assert items[..|items| - 1] == PrefixItems(prefixes[..n]);
    }
  }

  /** Every listing of texts without markup has a layout. */
  lemma {:induction false} PlainListingHasLayout(l: Listing) returns (f: Layout)
    requires Plain(l)
    ensures f.Says(l)
  {
    hide PlainObject, PlainText, ObjectLeaves, Describes, NamePrefixes, SaysFlags, FlagLeaves;
    FlagLeavesAre(l);
    forall o | o in l.objects
      ensures Describes(ObjectLeaves(o), o)
    {
      ObjectLeavesDescribe(o);
    }
    PrefixItemsName(l.commonPrefixes);
    f := Layout([], FlagLeaves(l),
                seq(|l.objects|, i requires 0 <= i < |l.objects| => ObjectLeaves(l.objects[i])),
                PrefixItems(l.commonPrefixes), []);
  }
}
