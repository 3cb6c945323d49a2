/** How one request's answer is cut out of the CLI's output and read
    (browser/src/composed-cli-worker.js:671-682, 689-708, 725-734).

    `Item`s are what the CLI writes; `Printed` is the text they make. The main
    results say that the text between the start of a request and its sentinel
    line is found exactly, and reads back as exactly the rows that were
    printed. */
module CliWindow {
  import opened Text

  const SENTINEL_PREFIX := "__SQLINK_SENT_"
  const MAIN_PROMPT := "sqlite> "
  const CONTINUATION := "...> "
  const LOADED := "Loaded extension:"
  const UNLOADED := "Unloaded extension:"

  function Sentinel(id: nat): string {
    SENTINEL_PREFIX + Decimal(id) + "__"
  }

  // ----- the code -----

  /** What the waiters look for. */
  predicate SentinelSeen(buffer: string, cursor: nat, sentinel: string) {
    IndexOf(buffer, sentinel, cursor) >= 0
  }

  /** The slice from the cursor to the end of the sentinel's line, or to the
      end of the buffer when that line is not finished yet. */
  function WindowOf(buffer: string, cursor: nat, sentinel: string): string
    requires SentinelSeen(buffer, cursor, sentinel)
  {
    var endIdx := IndexOf(buffer, "\n", IndexOf(buffer, sentinel, cursor));
    if endIdx < 0 then buffer[cursor..] else buffer[cursor..endIdx + 1]
  }

  function SkipSpace(s: string): (r: string)
    ensures |r| < |s| || r == s
  {
    if s != "" && IsSpace(s[0]) then SkipSpace(s[1..]) else s
  }

  /** Removes the longest run of prompts at the start of the line. */
  function StripPrompts(line: string): (r: string)
    ensures |r| < |line| || r == line
    decreases |line|
  {
    if OccursAt(line, MAIN_PROMPT, 0) then StripPrompts(line[|MAIN_PROMPT|..])
    else if OccursAt(SkipSpace(line), CONTINUATION, 0) then StripPrompts(SkipSpace(line)[|CONTINUATION|..])
    else line
  }

  function DropCr(line: string): string {
    if line != "" && line[|line| - 1] == '\r' then line[..|line| - 1] else line
  }

  predicate IsInfo(line: string) {
    OccursAt(line, LOADED, 0) || OccursAt(line, UNLOADED, 0)
  }

  predicate Mentions(line: string, pat: string) {
    IndexOf(line, pat, 0) >= 0
  }

  /** The value row a raw line stands for, if it stands for one. */
  function LineRow(raw: string, sentinel: string): seq<seq<string>> {
    var line := DropCr(StripPrompts(raw));
    if line == "" || line == sentinel || Mentions(line, SENTINEL_PREFIX) || IsInfo(line) then []
    else [Split(line, '|')]
  }

  function LineRows(lines: seq<string>, sentinel: string): seq<seq<string>> {
    if lines == [] then [] else LineRow(lines[0], sentinel) + LineRows(lines[1..], sentinel)
  }

  datatype ResultSet = ResultSet(columns: seq<string>, values: seq<seq<string>>)

  function ResultOf(rows: seq<seq<string>>): seq<ResultSet> {
    if rows == [] then [] else [ResultSet([], rows)]
  }

  function Parsed(text: string, sentinel: string): seq<ResultSet> {
    ResultOf(LineRows(Split(text, '\n'), sentinel))
  }

  lemma {:induction false} LineRowsStep(lines: seq<string>, i: nat, sentinel: string)
    requires i < |lines|
    ensures LineRows(lines[i..], sentinel) == LineRow(lines[i], sentinel) + LineRows(lines[i + 1..], sentinel)
  {
    hide LineRow;
    assert lines[i..][1..] == lines[i + 1..];
  }

  /** One more line read: its row, if it has one, goes to the rows so far. */
  lemma {:induction false} LineRead(
      lines: seq<string>, i: nat, sentinel: string, before: seq<seq<string>>, after: seq<seq<string>>)
    requires i < |lines| && before + LineRows(lines[i..], sentinel) == LineRows(lines, sentinel)
    requires after == before + LineRow(lines[i], sentinel)
    ensures after + LineRows(lines[i + 1..], sentinel) == LineRows(lines, sentinel)
  {
    hide LineRow, LineRows;
    LineRowsStep(lines, i, sentinel);
  }

  lemma {:induction false} NoneLeft(lines: seq<string>, sentinel: string)
    ensures LineRows(lines[|lines|..], sentinel) == []
  {
    assert lines[|lines|..] == [];
  }

  method ParseCliWindow(text: string, sentinel: string) returns (r: seq<ResultSet>)
    ensures r == Parsed(text, sentinel)
    ensures var rows := LineRows(Split(text, '\n'), sentinel);
            && (r == [] <==> rows == [])
            && (r != [] ==> |r| == 1 && r[0].columns == [] && r[0].values == rows)
  {
    hide Split, StripPrompts, DropCr, Mentions, IsInfo, LineRows;
    var lines := Split(text, '\n');
    var valueRows: seq<seq<string>> := [];
    assert lines[0..] == lines;
    for i := 0 to |lines|
      invariant valueRows + LineRows(lines[i..], sentinel) == LineRows(lines, sentinel)
    {
      ghost var before := valueRows;
      var line := DropCr(StripPrompts(lines[i]));
      if line != "" && line != sentinel && !Mentions(line, SENTINEL_PREFIX) && !IsInfo(line) {
        valueRows := valueRows + [Split(line, '|')];
      }
      LineRead(lines, i, sentinel, before, valueRows);
    }
    NoneLeft(lines, sentinel);
    assert valueRows + [] == valueRows;
    r := if |valueRows| == 0 then [] else [ResultSet([], valueRows)];
  }

  // ----- what the CLI writes -----

  datatype Item = Row(text: string) | Info(text: string) | Blank | Prompt(continued: bool)

  function PromptText(continued: bool): string {
    if continued then "   " + CONTINUATION else MAIN_PROMPT
  }

  function ItemText(item: Item): string {
    match item
    case Row(t) => t + "\n"
    case Info(t) => t + "\n"
    case Blank => "\n"
    case Prompt(c) => PromptText(c)
  }

  function Printed(items: seq<Item>): string {
    if items == [] then "" else ItemText(items[0]) + Printed(items[1..])
  }

  ghost predicate NoSentinelIn(text: string) {
    forall i: nat :: !OccursAt(text, SENTINEL_PREFIX, i)
  }

  /** A printed row must be one line, must not look like a prompt, like one of
      the CLI's own messages or like a sentinel, must not end in a carriage
      return and must not be blank. */
  ghost predicate CleanRow(text: string) {
    && '\n' !in text && NoSentinelIn(text)
    && StripPrompts(text) == text && DropCr(text) == text
    && text != "" && !IsInfo(text)
  }

  ghost predicate Clean(item: Item) {
    match item
    case Row(t) => CleanRow(t)
    case Info(t) => '\n' !in t && NoSentinelIn(t) && IsInfo(t)
    case Blank => true
    case Prompt(_) => true
  }

  ghost predicate AllClean(items: seq<Item>) {
    forall item <- items :: Clean(item)
  }

  /** The rows among the items, split into columns. */
  function RowsOf(items: seq<Item>): seq<seq<string>> {
    if items == [] then []
    else (if items[0].Row? then [Split(items[0].text, '|')] else []) + RowsOf(items[1..])
  }

  // ----- reading a window back -----

  function Prompts(ps: seq<bool>): string {
    if ps == [] then "" else PromptText(ps[0]) + Prompts(ps[1..])
  }

  lemma {:induction false} PromptPeels(c: bool, rest: string)
    ensures StripPrompts(PromptText(c) + rest) == StripPrompts(rest)
  {
    var line := PromptText(c) + rest;
    if c {
      Mismatch(line, MAIN_PROMPT, 0, 0);
      assert line[1..][1..][1..] == CONTINUATION + rest;
      assert SkipSpace(line) == SkipSpace(line[1..]) == SkipSpace(line[1..][1..]) == SkipSpace(CONTINUATION + rest);
      assert SkipSpace(line) == CONTINUATION + rest;
      assert OccursAt(CONTINUATION + rest, CONTINUATION, 0);
      assert (CONTINUATION + rest)[|CONTINUATION|..] == rest;
    } else {
      assert OccursAt(line, MAIN_PROMPT, 0);
      assert line[|MAIN_PROMPT|..] == rest;
    }
  }

  lemma {:induction false} PromptsPeel(ps: seq<bool>, rest: string)
    ensures StripPrompts(Prompts(ps) + rest) == StripPrompts(rest)
  {
    hide StripPrompts, PromptText;
    if ps == [] {
      assert Prompts(ps) + rest == rest;
    } else {
      assert Prompts(ps) + rest == PromptText(ps[0]) + (Prompts(ps[1..]) + rest);
      PromptPeels(ps[0], Prompts(ps[1..]) + rest);
      PromptsPeel(ps[1..], rest);
    }
  }

  lemma {:induction false} PromptsAreOneLine(ps: seq<bool>)
    ensures '\n' !in Prompts(ps)
  {
    if ps != [] {
      PromptsAreOneLine(ps[1..]);
    }
  }

  lemma {:induction false} PromptsAppend(ps: seq<bool>, c: bool)
    ensures Prompts(ps + [c]) == Prompts(ps) + PromptText(c)
  {
    hide PromptText;
    if ps == [] {
      assert ps + [c] == [c];
      assert Prompts([c][1..]) == "";
    } else {
      assert (ps + [c])[1..] == ps[1..] + [c];
      PromptsAppend(ps[1..], c);
    }
  }

  lemma {:induction false} NotMentioned(text: string)
    requires NoSentinelIn(text)
    ensures !Mentions(DropCr(text), SENTINEL_PREFIX)
  {
    var line := DropCr(text);
    IndexOfFinds(line, SENTINEL_PREFIX, 0);
    var i := IndexOf(line, SENTINEL_PREFIX, 0);
    if i >= 0 {
      OccursLonger(line, text, SENTINEL_PREFIX, i);
    }
  }

  lemma {:induction false} OccursLonger(s: string, t: string, pat: string, i: nat)
    requires s <= t && OccursAt(s, pat, i)
    ensures OccursAt(t, pat, i)
  {
  }

  lemma {:induction false} RowLine(ps: seq<bool>, text: string, sentinel: string)
    requires CleanRow(text) && OccursAt(sentinel, SENTINEL_PREFIX, 0)
    ensures LineRow(Prompts(ps) + text, sentinel) == [Split(text, '|')]
  {
    hide StripPrompts, Mentions, IsInfo, Split;
    PromptsPeel(ps, text);
    NotMentioned(text);
    assert !OccursAt(text, SENTINEL_PREFIX, 0);
  }

  lemma {:induction false} InfoIsNoPrompt(text: string)
    requires IsInfo(text)
    ensures StripPrompts(text) == text && IsInfo(DropCr(text))
  {
    var pat := if OccursAt(text, LOADED, 0) then LOADED else UNLOADED;
    assert text[0] == pat[0] && text[|pat| - 1] == pat[|pat| - 1] == ':';
    Mismatch(text, MAIN_PROMPT, 0, 0);
    assert SkipSpace(text) == text;
    Mismatch(text, CONTINUATION, 0, 0);
    assert OccursAt(DropCr(text), pat, 0);
  }

  lemma {:induction false} InfoLine(ps: seq<bool>, text: string, sentinel: string)
    requires IsInfo(text)
    ensures LineRow(Prompts(ps) + text, sentinel) == []
  {
    hide StripPrompts, Mentions, IsInfo, Split;
    PromptsPeel(ps, text);
    InfoIsNoPrompt(text);
  }

  lemma {:induction false} BlankLine(ps: seq<bool>, sentinel: string)
    ensures LineRow(Prompts(ps), sentinel) == []
  {
    hide Mentions, IsInfo, Split;
    PromptsPeel(ps, "");
    assert Prompts(ps) + "" == Prompts(ps);
    Mismatch("", MAIN_PROMPT, 0, 0);
    Mismatch("", CONTINUATION, 0, 0);
  }

  lemma {:induction false} SentinelShape(id: nat)
    ensures var s := Sentinel(id);
            && OccursAt(s, SENTINEL_PREFIX, 0) && |s| > |SENTINEL_PREFIX|
            && '\n' !in s && s[|s| - 1] == '_' && s[0] == '_'
            && forall k :: 0 <= k < |s| ==> s[k] == '_' || 'A' <= s[k] <= 'Z' || IsDigit(s[k])
  {
    var d := Decimal(id);
    assert Sentinel(id) == SENTINEL_PREFIX + (d + "__");
    forall k | 0 <= k < |Sentinel(id)|
      ensures var c := Sentinel(id)[k]; c == '_' || 'A' <= c <= 'Z' || IsDigit(c)
    {
      if |SENTINEL_PREFIX| <= k < |SENTINEL_PREFIX| + |d| {
        assert Sentinel(id)[k] == d[k - |SENTINEL_PREFIX|];
        assert Sentinel(id)[k] in d;
      }
    }
  }

  lemma {:induction false} SentinelIsNoPrompt(id: nat)
    ensures StripPrompts(Sentinel(id)) == Sentinel(id)
  {
    hide Sentinel;
    var s := Sentinel(id);
    SentinelShape(id);
    Mismatch(s, MAIN_PROMPT, 0, 0);
    assert SkipSpace(s) == s;
    Mismatch(s, CONTINUATION, 0, 0);
  }

  lemma {:induction false} SentinelLine(ps: seq<bool>, id: nat)
    ensures LineRow(Prompts(ps) + Sentinel(id), Sentinel(id)) == []
  {
    hide Mentions, IsInfo, Split, Sentinel, StripPrompts, Prompts;
    SentinelShape(id);
    PromptsPeel(ps, Sentinel(id));
    SentinelIsNoPrompt(id);
  }

  lemma {:induction false} RowsOfPrompt(items: seq<Item>)
    requires items != [] && !items[0].Row?
    ensures RowsOf(items) == RowsOf(items[1..])
  {
  }

  /** One finished line adds its own row and leaves the rest to be read. */
  lemma {:induction false} LineStep(line: string, rest: string, sentinel: string)
    requires '\n' !in line
    ensures LineRows(Split(line + "\n" + rest, '\n'), sentinel) ==
            LineRow(line, sentinel) + LineRows(Split(rest, '\n'), sentinel)
  {
    hide LineRow, Split;
    SplitFirst(line, '\n', rest);
    assert [line] + Split(rest, '\n') != [];
    assert ([line] + Split(rest, '\n'))[1..] == Split(rest, '\n');
  }

  lemma {:induction false} LastLine(line: string, e: string, sentinel: string)
    requires '\n' !in line && e in {"", "\n"}
    ensures LineRows(Split(line + e, '\n'), sentinel) == LineRow(line, sentinel)
  {
    hide Mentions, IsInfo;
    if e == "" {
      assert line + e == line;
      SplitOne(line, '\n');
      assert [line][1..] == [];
    } else {
      LineStep(line, "", sentinel);
      assert line + e == line + "\n" + "";
      SplitOne("", '\n');
      BlankLine([], sentinel);
      assert [""][1..] == [];
    }
  }

  /** Reading behind `ps`, prompts that already stand at the start of the line. */
  lemma {:induction false} ReadsBack(ps: seq<bool>, items: seq<Item>, id: nat, e: string)
    requires AllClean(items) && e in {"", "\n"}
    ensures LineRows(Split(Prompts(ps) + Printed(items) + Sentinel(id) + e, '\n'), Sentinel(id)) == RowsOf(items)
    decreases |items|
  {
    hide LineRows, LineRow, Split, Sentinel, Prompts, Clean, PromptText;
    if items == [] {
      var s := Sentinel(id);
      SentinelShape(id);
      PromptsAreOneLine(ps);
      assert Prompts(ps) + Printed(items) + s + e == (Prompts(ps) + s) + e;
      LastLine(Prompts(ps) + s, e, s);
      SentinelLine(ps, id);
    } else if items[0].Prompt? {
      ReadsPrompt(ps, items, id, e);
    } else {
      ReadsLine(ps, items, id, e);
    }
  }

  lemma {:induction false} ReadsPrompt(ps: seq<bool>, items: seq<Item>, id: nat, e: string)
    requires items != [] && items[0].Prompt? && AllClean(items) && e in {"", "\n"}
    ensures LineRows(Split(Prompts(ps) + Printed(items) + Sentinel(id) + e, '\n'), Sentinel(id)) == RowsOf(items)
    decreases |items|, 0
  {
    hide LineRows, Split, Sentinel, Prompts, Clean, PromptText;
    var c := items[0].continued;
    PromptsAppend(ps, c);
    assert Prompts(ps) + Printed(items) == Prompts(ps + [c]) + Printed(items[1..]);
    ReadsBack(ps + [c], items[1..], id, e);
    RowsOfPrompt(items);
  }

  lemma {:induction false} ReadsLine(ps: seq<bool>, items: seq<Item>, id: nat, e: string)
    requires items != [] && !items[0].Prompt? && AllClean(items) && e in {"", "\n"}
    ensures LineRows(Split(Prompts(ps) + Printed(items) + Sentinel(id) + e, '\n'), Sentinel(id)) == RowsOf(items)
    decreases |items|, 0
  {
    hide LineRows, LineRow, Split, Sentinel, Prompts, Clean, PromptText, LineText;
    var s, item, rest := Sentinel(id), items[0], Printed(items[1..]);
    assert Clean(item);
    SentinelShape(id);
    ReadsBack([], items[1..], id, e);
    NoPrompts();
    assert Prompts([]) + rest + s + e == rest + s + e;
    Regroup(Prompts(ps), LineText(item), rest, s, e);
    ItemLine(ps, item, s);
    LineStep(Prompts(ps) + LineText(item), rest + s + e, s);
    RowsOfHead(items);
  }

  lemma {:induction false} RowsOfHead(items: seq<Item>)
    requires items != []
    ensures RowsOf(items) == RowsOf([items[0]]) + RowsOf(items[1..])
  {
    hide Split;
    assert RowsOf([items[0]][1..]) == [];
  }

  lemma {:induction false} Regroup(a: string, b: string, c: string, d: string, e: string)
    ensures a + ((b + "\n") + c) + d + e == (a + b) + "\n" + (c + d + e)
  {
  }

  /** The line an item other than a prompt prints. */
  function LineText(item: Item): (t: string)
    requires !item.Prompt?
    ensures ItemText(item) == t + "\n"
  {
    if item.Blank? then "" else item.text
  }

  lemma {:induction false} ItemLine(ps: seq<bool>, item: Item, sentinel: string)
    requires Clean(item) && !item.Prompt? && OccursAt(sentinel, SENTINEL_PREFIX, 0)
    ensures '\n' !in Prompts(ps) + LineText(item)
    ensures LineRow(Prompts(ps) + LineText(item), sentinel) == RowsOf([item])
  {
    hide LineRow, Split, Prompts, NoSentinelIn, IsInfo, StripPrompts;
    PromptsAreOneLine(ps);
    assert RowsOf([item][1..]) == [];
    match item
    case Row(t) => RowLine(ps, t, sentinel);
    case Info(t) => InfoLine(ps, t, sentinel);
    case Blank =>
      assert Prompts(ps) + "" == Prompts(ps);
      BlankLine(ps, sentinel);
  }

  lemma {:induction false} NoPrompts()
    ensures Prompts([]) == ""
  {
  }

  /** A window reads back as exactly the rows printed in it. */
  lemma {:induction false} WindowReadsBack(items: seq<Item>, id: nat, window: string)
    requires AllClean(items) && UpToLineEnd(window, Printed(items) + Sentinel(id))
    ensures Parsed(window, Sentinel(id)) == ResultOf(RowsOf(items))
    ensures var r := Parsed(window, Sentinel(id));
            && (r == [] <==> RowsOf(items) == [])
            && (r != [] ==> |r| == 1 && r[0].columns == [] && r[0].values == RowsOf(items))
  {
    hide LineRows, LineRow, Split, Sentinel, Printed, RowsOf, AllClean;
    NoPrompts();
    var e := if window == Printed(items) + Sentinel(id) then "" else "\n";
    ReadsBack([], items, id, e);
    assert Prompts([]) + Printed(items) + Sentinel(id) + e == window;
  }

  // ----- which lines come back as they are -----

  lemma {:induction false} SplitIsInjective(a: string, b: string, c: char)
    requires Split(a, c) == Split(b, c)
    ensures a == b
  {
    hide Split, Join;
    JoinSplit(a, c);
    JoinSplit(b, c);
  }

  lemma {:induction false} JoinSplit(s: string, c: char)
    ensures Join(Split(s, c), [c]) == s
  {
    if s != "" {
      JoinSplit(s[1..], c);
      var rest := Split(s[1..], c);
      if s[0] == c {
        assert ([""] + rest)[1..] == rest;
        assert s == "" + [c] + s[1..];
      } else {
        JoinHead(s[0], rest, c);
        assert s == [s[0]] + s[1..];
      }
    }
  }

  lemma {:induction false} JoinHead(h: char, rest: seq<string>, c: char)
    requires rest != []
    ensures Join([[h] + rest[0]] + rest[1..], [c]) == [h] + Join(rest, [c])
  {
    assert ([[h] + rest[0]] + rest[1..])[1..] == rest[1..];
    if |rest| > 1 {
      assert [h] + rest[0] + [c] + Join(rest[1..], [c]) == [h] + (rest[0] + [c] + Join(rest[1..], [c]));
    }
  }

  /** Looks like a prompt: the main one, or the other with any white space. */
  ghost predicate IsPrompted(line: string) {
    || StartsWith(line, "sqlite> ")
    || exists n: nat | n <= |line| :: AllSpace(line[..n]) && StartsWith(line[n..], "...> ")
  }

  predicate IsMessage(line: string) {
    StartsWith(line, "Loaded extension:") || StartsWith(line, "Unloaded extension:")
  }

  ghost predicate IsMarked(line: string) {
    exists n: nat | n <= |line| :: StartsWith(line[n..], "__SQLINK_SENT_")
  }

  lemma {:induction false} SkipSpaceIs(line: string) returns (n: nat)
    ensures n <= |line| && AllSpace(line[..n]) && SkipSpace(line) == line[n..]
    ensures n < |line| ==> !IsSpace(line[n])
  {
    hide IsSpace;
    n := 0;
    if line != "" && IsSpace(line[0]) {
      n := SkipSpaceIs(line[1..]);
      n := n + 1;
      assert line[..n] == [line[0]] + line[1..][..n - 1] && line[1..][n - 1..] == line[n..];
    }
  }

  /** Exactly the lines that look like prompts lose something. */
  lemma {:induction false} StrippedIff(line: string)
    ensures StripPrompts(line) == line <==> !IsPrompted(line)
  {
    hide IsSpace, OccursAt, StartsWith;
    var n := SkipSpaceIs(line);
    OccursIs(line, MAIN_PROMPT, 0);
    OccursIs(SkipSpace(line), CONTINUATION, 0);
    assert line[0..] == line && SkipSpace(line)[0..] == line[n..];
    if OccursAt(line, MAIN_PROMPT, 0) {
      OccursFits(line, MAIN_PROMPT, 0);
    } else if OccursAt(SkipSpace(line), CONTINUATION, 0) {
      OccursFits(SkipSpace(line), CONTINUATION, 0);
    } else if m: nat :| m <= |line| && AllSpace(line[..m]) && StartsWith(line[m..], "...> ") {
      DotBehindSpace(line, n, m);
    }
  }

  lemma {:induction false} DotBehindSpace(line: string, n: nat, m: nat)
    requires n <= |line| && AllSpace(line[..n]) && (n < |line| ==> !IsSpace(line[n]))
    requires m <= |line| && AllSpace(line[..m]) && StartsWith(line[m..], "...> ")
    ensures m == n
  {
    hide IsSpace;
    SpacesAre('.');
    assert line[m..][..5] == "...> ";
    assert line[m] == line[m..][..5][0] == '.';
    assert forall i :: 0 <= i < n ==> line[..n][i] == line[i];
    assert forall i :: 0 <= i < m ==> line[..m][i] == line[i];
  }

  /** What may be printed, spelled out. */
  lemma {:induction false} CleanIs(item: Item)
    ensures Clean(item) <==>
            match item
            case Row(t) =>
              && t != "" && '\n' !in t && t[|t| - 1] != '\r'
              && !IsPrompted(t) && !IsMessage(t) && !IsMarked(t)
            case Info(t) => '\n' !in t && IsMessage(t) && !IsMarked(t)
            case Blank => true
            case Prompt(_) => true
  {
    hide StripPrompts, IsPrompted, IsInfo, IsMessage, NoSentinelIn, IsMarked;
    if item.Row? || item.Info? {
      StrippedIff(item.text);
      MessageIs(item.text);
      MarkedIs(item.text);
    }
  }

  lemma {:induction false} MessageIs(line: string)
    ensures IsInfo(line) <==> IsMessage(line)
  {
    hide OccursAt, StartsWith;
    OccursIs(line, LOADED, 0);
    OccursIs(line, UNLOADED, 0);
    assert line[0..] == line;
  }

  lemma {:induction false} MarkedIs(line: string)
    ensures NoSentinelIn(line) <==> !IsMarked(line)
    ensures Mentions(line, SENTINEL_PREFIX) <==> IsMarked(line)
  {
    hide OccursAt, StartsWith;
    IndexOfFinds(line, SENTINEL_PREFIX, 0);
    forall i: nat
      ensures OccursAt(line, SENTINEL_PREFIX, i) <==> i <= |line| && StartsWith(line[i..], "__SQLINK_SENT_")
    {
      OccursIs(line, SENTINEL_PREFIX, i);
    }
  }

  /** A printed line is returned as its own columns exactly when it is not
      blank, carries no prompt in front and no carriage return behind, is none
      of the CLI's messages and mentions no sentinel. */
  lemma {:induction false} ReturnedUnchanged(ps: seq<bool>, line: string, id: nat)
    ensures LineRow(Prompts(ps) + line, Sentinel(id)) == [Split(line, '|')] <==>
            && line != "" && !IsPrompted(line) && line[|line| - 1] != '\r'
            && !IsMessage(line) && !IsMarked(line)
  {
    hide Mentions, IsInfo, Split, Sentinel, StripPrompts, Prompts, IsPrompted, IsMessage, IsMarked;
    PromptsPeel(ps, line);
    SentinelMentioned(id);
    StrippedIff(line);
    MessageIs(line);
    MarkedIs(line);
    var kept := DropCr(StripPrompts(line));
    if LineRow(Prompts(ps) + line, Sentinel(id)) == [Split(line, '|')] {
      assert Split(kept, '|') == Split(line, '|');
      SplitIsInjective(kept, line, '|');
    }
  }

  lemma {:induction false} SentinelMentioned(id: nat)
    ensures Mentions(Sentinel(id), SENTINEL_PREFIX)
  {
    hide Sentinel;
    SentinelShape(id);
    IndexOfIs(Sentinel(id), SENTINEL_PREFIX, 0, 0);
  }

  /** The text, and the line end behind it if that has arrived. */
  predicate UpToLineEnd(window: string, text: string) {
    window == text || window == text + "\n"
  }

  // ----- cells -----

  /** The cells of a row come back exactly when none of them contains a bar. */
  lemma {:induction false} CellsComeBackIff(cells: seq<string>)
    requires cells != []
    ensures Split(Join(cells, "|"), '|') == cells <==> forall c <- cells :: '|' !in c
  {
    if forall c <- cells :: '|' !in c {
      assert cells[0] in cells;
      if |cells| == 1 {
        SplitOne(cells[0], '|');
      } else {
        assert forall c <- cells[1..] :: c in cells;
        CellsComeBackIff(cells[1..]);
        SplitFirst(cells[0], '|', Join(cells[1..], "|"));
      }
    }
  }

  /** What the rows of a printed output are: those of its parts one after the
      other, one for each row item, none for any other. */
  lemma {:induction false} RowsAreInOrder(a: seq<Item>, b: seq<Item>, text: string, continued: bool)
    ensures RowsOf(a + b) == RowsOf(a) + RowsOf(b)
    ensures RowsOf([Row(text)]) == [Split(text, '|')]
    ensures RowsOf([Info(text)]) == RowsOf([Blank]) == RowsOf([Prompt(continued)]) == RowsOf([]) == []
  {
    hide Split;
    RowsConcat(a, b);
    assert [Row(text)][1..] == [] && [Info(text)][1..] == [] && [Blank][1..] == [] && [Prompt(continued)][1..] == [];
  }

  lemma {:induction false} RowsConcat(a: seq<Item>, b: seq<Item>)
    ensures RowsOf(a + b) == RowsOf(a) + RowsOf(b)
  {
    if a == [] {
      assert a + b == b;
    } else {
      RowsHead(a);
      RowsHead(a + b);
      hide RowsOf, Split;
      assert (a + b)[1..] == a[1..] + b;
      RowsConcat(a[1..], b);
    }
  }

  lemma {:induction false} RowsHead(a: seq<Item>)
    requires a != []
    ensures RowsOf(a) == RowsOf([a[0]]) + RowsOf(a[1..])
  {
    hide Split;
    assert [a[0]][1..] == [];
  }

  /** What is printed is the texts of the items, each row and message on a line
      of its own, each prompt as it is. */
  lemma {:induction false} PrintedIs(a: seq<Item>, b: seq<Item>, text: string)
    ensures Printed(a + b) == Printed(a) + Printed(b) && Printed([]) == ""
    ensures Printed([Row(text)]) == Printed([Info(text)]) == text + "\n" && Printed([Blank]) == "\n"
    ensures Printed([Prompt(false)]) == "sqlite> " && Printed([Prompt(true)]) == "   ...> "
  {
    PrintedConcat(a, b);
    assert [Row(text)][1..] == [] && [Info(text)][1..] == [] && [Blank][1..] == [];
    assert [Prompt(false)][1..] == [] && [Prompt(true)][1..] == [];
  }

  lemma {:induction false} PrintedConcat(a: seq<Item>, b: seq<Item>)
    ensures Printed(a + b) == Printed(a) + Printed(b)
  {
    hide ItemText;
    if a == [] {
      assert a + b == b;
    } else {
      assert (a + b)[1..] == a[1..] + b;
      PrintedConcat(a[1..], b);
    }
  }

  /** The rows among the items, as printed. */
  function RowTexts(items: seq<Item>): seq<string> {
    if items == [] then []
    else (if items[0].Row? then [items[0].text] else []) + RowTexts(items[1..])
  }

  lemma {:induction false} RowsAreTexts(items: seq<Item>)
    ensures |RowsOf(items)| == |RowTexts(items)|
    ensures forall i :: 0 <= i < |RowsOf(items)| ==> RowsOf(items)[i] == Split(RowTexts(items)[i], '|')
  {
    hide Split;
    if items != [] {
      RowsAreTexts(items[1..]);
    }
  }

  /** The items print the rows of this table. */
  ghost predicate Prints(items: seq<Item>, table: seq<seq<string>>) {
    && |RowTexts(items)| == |table|
    && forall i :: 0 <= i < |table| ==> table[i] != [] && RowTexts(items)[i] == Join(table[i], "|")
  }

  lemma {:induction false} TableComesBackIff(items: seq<Item>, table: seq<seq<string>>)
    requires Prints(items, table)
    ensures RowsOf(items) == table <==> forall row <- table :: forall c <- row :: '|' !in c
  {
    hide Split, Join, RowsOf, RowTexts;
    RowsAreTexts(items);
    forall i | 0 <= i < |table|
      ensures RowsOf(items)[i] == table[i] <==> forall c <- table[i] :: '|' !in c
    {
      CellsComeBackIff(table[i]);
    }
    if RowsOf(items) == table {
      forall row | row in table
        ensures forall c <- row :: '|' !in c
      {
        var i :| 0 <= i < |table| && table[i] == row;
        assert RowsOf(items)[i] == table[i];
      }
    } else {
      var i :| 0 <= i < |table| && RowsOf(items)[i] != table[i];
      assert table[i] in table;
    }
  }

  // ----- finding the sentinel -----

  /** No sentinel starts inside what was printed before it. */
  lemma {:induction false} NoneBefore(items: seq<Item>, id: nat, more: string, i: nat)
    requires AllClean(items) && i < |Printed(items)|
    ensures !OccursAt(Printed(items) + more, Sentinel(id), i)
  {
    hide Sentinel, OccursAt, IsInfo, StripPrompts;
    var head, rest := ItemText(items[0]), Printed(items[1..]);
    var s := Sentinel(id);
    assert Clean(items[0]);
    assert Printed(items) + more == head + (rest + more);
    SentinelShape(id);
    if |head| <= i {
      OccursInSuffix(head, rest + more, s, i);
      NoneBefore(items[1..], id, more, i - |head|);
    } else {
      NotInItem(items[0], id, rest + more, i);
    }
  }

  lemma {:induction false} NotInItem(item: Item, id: nat, more: string, i: nat)
    requires Clean(item) && i < |ItemText(item)|
    ensures !OccursAt(ItemText(item) + more, Sentinel(id), i)
  {
    hide Sentinel, OccursAt, IsInfo, StripPrompts;
    var s := Sentinel(id);
    SentinelShape(id);
    var text := ItemText(item) + more;
    if item.Prompt? {
      assert text[i] == PromptText(item.continued)[i] != '_';
      Mismatch(text, s, i, 0);
    } else if item.Blank? {
      assert text[i] == '\n';
      Mismatch(text, s, i, 0);
    } else {
      NotInLine(item.text, id, "\n" + more, i);
      assert text == item.text + ("\n" + more);
    }
  }

  lemma {:induction false} NotInLine(t: string, id: nat, more: string, i: nat)
    requires NoSentinelIn(t) && i <= |t| && more != "" && more[0] == '\n'
    ensures !OccursAt(t + more, Sentinel(id), i)
  {
    hide Sentinel;
    var s := Sentinel(id);
    SentinelShape(id);
    if i + |SENTINEL_PREFIX| <= |t| {
      assert !OccursAt(t, SENTINEL_PREFIX, i);
      var k :| 0 <= k < |SENTINEL_PREFIX| && SENTINEL_PREFIX[k] != t[i + k];
      Mismatch(t + more, s, i, k);
    } else {
      assert (t + more)[i + (|t| - i)] == '\n';
      Mismatch(t + more, s, i, |t| - i);
    }
  }

  /** The code's window, from a buffer whose part behind the cursor is the
      start of what this request's output will be, is exactly the text up to
      the sentinel and its line end. */
  lemma {:induction false} WindowIs(seen: string, shown: string, items: seq<Item>, id: nat, tail: string)
    requires AllClean(items)
    requires shown <= Printed(items) + Sentinel(id) + "\n" + tail
    requires SentinelSeen(seen + shown, |seen|, Sentinel(id))
    ensures |Printed(items) + Sentinel(id)| <= |shown|
    ensures UpToLineEnd(WindowOf(seen + shown, |seen|, Sentinel(id)), Printed(items) + Sentinel(id))
    ensures WindowOf(seen + shown, |seen|, Sentinel(id)) ==
            Printed(items) + Sentinel(id) + if |shown| > |Printed(items) + Sentinel(id)| then "\n" else ""
  {
    hide Sentinel, OccursAt, IndexOf, Printed, AllClean;
    var s, front := Sentinel(id), Printed(items);
    SentinelShape(id);
    SeenAt(seen, shown, items, id, tail);
    var at := |seen| + |front|;
    var rest := shown[|front + s|..];
    assert shown == front + s + rest;
    assert seen + shown == (seen + front) + s + rest;
    LineEndAt(seen + front, s, rest);
    if rest == "" {
      assert (seen + shown)[|seen|..] == front + s;
    } else {
      assert (seen + shown)[|seen|..|seen + front + s| + 1] == front + s + "\n";
    }
  }

  lemma {:induction false} LineEndAt(front: string, s: string, rest: string)
    requires '\n' !in s && (rest != "" ==> rest[0] == '\n')
    ensures IndexOf(front + s + rest, "\n", |front|) == if rest != "" then |front + s| else -1
  {
    hide IndexOf;
    var buffer := front + s + rest;
    forall i: nat | |front| <= i < |front + s|
      ensures !OccursAt(buffer, "\n", i)
    {
      assert buffer[i] == s[i - |front|] && s[i - |front|] in s;
      Mismatch(buffer, "\n", i, 0);
    }
    IndexOfFinds(buffer, "\n", |front|);
    if rest != "" {
      assert OccursAt(buffer, "\n", |front + s|);
      IndexOfIs(buffer, "\n", |front|, |front + s|);
    }
  }

  lemma {:induction false} SeenAt(seen: string, shown: string, items: seq<Item>, id: nat, tail: string)
    requires AllClean(items)
    requires shown <= Printed(items) + Sentinel(id) + "\n" + tail
    requires SentinelSeen(seen + shown, |seen|, Sentinel(id))
    ensures |Printed(items) + Sentinel(id)| <= |shown|
    ensures IndexOf(seen + shown, Sentinel(id), |seen|) == |seen| + |Printed(items)|
  {
    hide Sentinel, OccursAt, IndexOf, Printed, AllClean;
    var s, front := Sentinel(id), Printed(items);
    var all := front + s + "\n" + tail;
    IndexOfShift(seen, shown, s, 0);
    IndexOfFinds(shown, s, 0);
    var r := IndexOf(shown, s, 0);
    OccursInPrefix(shown, all, s, r);
    OccursFits(shown, s, r);
    assert all == front + (s + "\n" + tail);
    forall i: nat | i < |front|
      ensures !OccursAt(all, s, i)
    {
      NoneBefore(items, id, s + "\n" + tail, i);
    }
    OccursHere(front, s, "\n" + tail);
    assert all == front + s + ("\n" + tail);
    OccursInPrefix(shown, all, s, |front|);
  }

  lemma {:induction false} OccursHere(a: string, pat: string, b: string)
    ensures OccursAt(a + pat + b, pat, |a|)
  {
  }

  lemma {:induction false} OccursInPrefix(s: string, t: string, pat: string, i: nat)
    requires s <= t && i + |pat| <= |s|
    ensures OccursAt(s, pat, i) <==> OccursAt(t, pat, i)
  {
  }

  /** With echo off a window holds no copy of the sentinel's own statement, so
      a dot command's output is never trimmed there. */
  lemma {:induction false} NoSelectInWindow(items: seq<Item>, id: nat, window: string)
    requires AllClean(items) && UpToLineEnd(window, Printed(items) + Sentinel(id))
    ensures !Mentions(window, "SELECT '" + Sentinel(id) + "'")
  {
    hide Sentinel, OccursAt, IndexOf, Printed, AllClean;
    var s, front := Sentinel(id), Printed(items);
    var pat, more := "SELECT '" + s + "'", window[|front|..];
    IndexOfFinds(window, pat, 0);
    var i := IndexOf(window, pat, 0);
    if i >= 0 {
      QuotedOccurs(window, s, i);
      assert window == front + more;
      if i + 8 < |front| {
        NoneBefore(items, id, more, i + 8);
      }
      assert false;
    }
  }

  lemma {:induction false} QuotedOccurs(window: string, s: string, i: nat)
    requires OccursAt(window, "SELECT '" + s + "'", i)
    ensures OccursAt(window, s, i + 8)
    ensures i + 8 + |s| < |window| && window[i + 8 + |s|] == '\''
  {
    var pat := "SELECT '" + s + "'";
    assert pat[8 + |s|] == '\'';
    assert forall k :: 0 <= k < |s| ==> s[k] == pat[8 + k] == window[i + (8 + k)];
  }
}
