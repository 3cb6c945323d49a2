/** The CSV line scanner (demo/src/main.ts:634-659) against the quoting of
    RFC 4180 section 2: a field may stand in double quotes, with quotes inside
    it doubled, and must if it contains a quote or a comma. */
module CsvLine {
  import opened Text

  function TrimStart(s: string): string {
    if s != "" && IsSpace(s[0]) then TrimStart(s[1..]) else s
  }

  function Trim(s: string): string {
    TrimEnd(TrimStart(s))
  }

  /** The fields from here on, with `current` already read of the first. */
  function Scan(s: string, current: string, inQuotes: bool): seq<string>
    decreases |s|
  {
    if s == "" then [Trim(current)]
    else if s[0] == '"' then
      if inQuotes && |s| > 1 && s[1] == '"' then Scan(s[2..], current + "\"", true)
      else Scan(s[1..], current, !inQuotes)
    else if s[0] == ',' && !inQuotes then [Trim(current)] + Scan(s[1..], "", false)
    else Scan(s[1..], current + [s[0]], inQuotes)
  }

  function Parse(line: string): seq<string> {
    Scan(line, "", false)
  }

  method ParseCsvLine(line: string) returns (result: seq<string>)
    ensures result == Parse(line)
  {
    hide Trim;
    result := [];
    var current, inQuotes := "", false;
    var i := 0;
    while i < |line|
      invariant i <= |line|
      invariant result + Scan(line[i..], current, inQuotes) == Parse(line)
    {
      var c := line[i];
      if c == '"' {
        if inQuotes && i + 1 < |line| && line[i + 1] == '"' {
          current := current + "\"";
          i := i + 1;
        } else {
          inQuotes := !inQuotes;
        }
      } else if c == ',' && !inQuotes {
        result := result + [Trim(current)];
        current := "";
      } else {
        current := current + [c];
      }
      i := i + 1;
    }
    result := result + [Trim(current)];
  }

  // ----- writing -----

  function Doubled(f: string): string {
    if f == "" then "" else (if f[0] == '"' then "\"\"" else [f[0]]) + Doubled(f[1..])
  }

  datatype Field = Quoted(text: string) | Bare(text: string) {
    predicate Valid() {
      Bare? ==> '"' !in text && ',' !in text
    }

    function Written(): string {
      if Quoted? then "\"" + Doubled(text) + "\"" else text
    }
  }

  function Write(fields: seq<Field>): string
    requires fields != []
  {
    if |fields| == 1 then fields[0].Written() else fields[0].Written() + "," + Write(fields[1..])
  }

  function Texts(fields: seq<Field>): seq<string> {
    seq(|fields|, i requires 0 <= i < |fields| => fields[i].text)
  }

  function Trimmed(texts: seq<string>): seq<string> {
    seq(|texts|, i requires 0 <= i < |texts| => Trim(texts[i]))
  }

  lemma {:induction false} ScanDoubled(f: string, current: string, rest: string)
    requires rest == "" || rest[0] != '"'
    ensures Scan(Doubled(f) + "\"" + rest, current, true) == Scan(rest, current + f, false)
    decreases |f|
  {
    hide Trim;
    var s := Doubled(f) + "\"" + rest;
    if f == "" {
      assert s[1..] == rest && current + f == current;
    } else {
      ScanDoubled(f[1..], current + [f[0]], rest);
      assert current + [f[0]] + f[1..] == current + f;
      var more := Doubled(f[1..]) + "\"" + rest;
      if f[0] == '"' {
        assert s[2..] == more;
      } else {
        assert s[1..] == more;
      }
    }
  }

  lemma {:induction false} ScanBare(f: string, current: string, rest: string)
    requires '"' !in f && ',' !in f
    ensures Scan(f + rest, current, false) == Scan(rest, current + f, false)
    decreases |f|
  {
    hide Trim;
    if f == "" {
      assert f + rest == rest && current + f == current;
    } else {
      assert (f + rest)[1..] == f[1..] + rest;
      assert current + [f[0]] + f[1..] == current + f;
      ScanBare(f[1..], current + [f[0]], rest);
    }
  }

  lemma {:induction false} ScanField(field: Field, rest: string)
    requires field.Valid() && (rest == "" || rest[0] == ',')
    ensures Scan(field.Written() + rest, "", false) == Scan(rest, field.text, false)
  {
    hide Trim;
    assert "" + field.text == field.text;
    if field.Quoted? {
      var s := field.Written() + rest;
      assert s[1..] == Doubled(field.text) + "\"" + rest;
      ScanDoubled(field.text, "", rest);
    } else {
      ScanBare(field.text, "", rest);
    }
  }

  lemma {:induction false} TrimStartIs(white: string, body: string)
    requires (forall c <- white :: IsSpace(c)) && (body != "" ==> !IsSpace(body[0]))
    ensures TrimStart(white + body) == body
  {
    hide IsSpace;
    if white == "" {
      assert white + body == body;
    } else {
      assert white[0] in white && (white + body)[1..] == white[1..] + body;
      assert forall c <- white[1..] :: c in white;
      TrimStartIs(white[1..], body);
    }
  }

  /** Trimming takes the white space off both ends and nothing else. */
  lemma {:induction false} TrimIs(before: string, body: string, after: string)
    requires (forall c <- before :: IsSpace(c)) && (forall c <- after :: IsSpace(c))
    requires body != "" ==> !IsSpace(body[0]) && !IsSpace(body[|body| - 1])
    ensures Trim(before + body + after) == body
  {
    hide IsSpace;
    if body == "" {
      assert before + body + after == (before + after) + "";
      TrimStartIs(before + after, "");
      assert TrimEnd("") == "";
    } else {
      assert before + body + after == before + (body + after) && (body + after)[0] == body[0];
      TrimStartIs(before, body + after);
      TrimEndIs(body, after);
    }
  }

  /** Whichever way each field is written, the line parses to the fields with
      the white space around them trimmed, inside quotes too. */
  lemma {:induction false} ParseOfWritten(fields: seq<Field>)
    requires fields != [] && forall f <- fields :: f.Valid()
    ensures Parse(Write(fields)) == Trimmed(Texts(fields))
    ensures |Parse(Write(fields))| == |fields|
    ensures forall i :: 0 <= i < |fields| ==> Parse(Write(fields))[i] == Trim(fields[i].text)
    decreases |fields|
  {
    hide Trim, Field.Written, Field.Valid;
    var f := fields[0];
    if |fields| == 1 {
      ScanField(f, "");
      assert f.Written() + "" == f.Written();
    } else {
      var rest := "," + Write(fields[1..]);
      assert Write(fields) == f.Written() + rest;
      ScanField(f, rest);
      assert rest[1..] == Write(fields[1..]);
      ParseOfWritten(fields[1..]);
      assert Trimmed(Texts(fields)) == [Trim(f.text)] + Trimmed(Texts(fields[1..]));
    }
  }

  /** So a list comes back exactly when no field has white space at its ends. */
  lemma {:induction false} RoundTripIff(fields: seq<Field>)
    requires fields != [] && forall f <- fields :: f.Valid()
    ensures Parse(Write(fields)) == seq(|fields|, i requires 0 <= i < |fields| => fields[i].text) <==>
            forall f <- fields :: f.text == "" || (!IsSpace(f.text[0]) && !IsSpace(f.text[|f.text| - 1]))
  {
    hide Parse, Write, Trim, Field.Valid;
    ParseOfWritten(fields);
    var texts := Texts(fields);
    forall i | 0 <= i < |fields|
      ensures Trim(texts[i]) == texts[i] <==>
              texts[i] == "" || (!IsSpace(texts[i][0]) && !IsSpace(texts[i][|texts[i]| - 1]))
    {
      TrimmedIff(texts[i]);
    }
    if Parse(Write(fields)) == Texts(fields) {
      forall f | f in fields
        ensures f.text == "" || (!IsSpace(f.text[0]) && !IsSpace(f.text[|f.text| - 1]))
      {
        var i :| 0 <= i < |fields| && fields[i] == f;
        assert Trimmed(texts)[i] == texts[i];
      }
    } else {
      assert Trimmed(texts) != texts;
    }
  }

  lemma {:induction false} TrimmedIff(s: string)
    ensures Trim(s) == s <==> s == "" || (!IsSpace(s[0]) && !IsSpace(s[|s| - 1]))
  {
    TrimShortens(s);
  }

  lemma {:induction false} TrimShortens(s: string)
    ensures |TrimEnd(TrimStart(s))| <= |TrimStart(s)| <= |s|
    ensures s != "" && IsSpace(s[0]) ==> |TrimStart(s)| < |s|
    ensures s != "" && !IsSpace(s[0]) ==> TrimStart(s) == s
    ensures s != "" && !IsSpace(s[0]) && IsSpace(s[|s| - 1]) ==> |TrimEnd(s)| < |s|
  {
    hide IsSpace;
    StartShortens(s);
    EndShortens(TrimStart(s));
    if s != "" && IsSpace(s[|s| - 1]) {
      EndShortens(s[..|s| - 1]);
    }
    if s != "" && IsSpace(s[0]) {
      StartShortens(s[1..]);
    }
  }

  lemma {:induction false} StartShortens(s: string)
    ensures |TrimStart(s)| <= |s|
  {
    hide IsSpace;
    if s != "" && IsSpace(s[0]) {
      StartShortens(s[1..]);
    }
  }

  lemma {:induction false} EndShortens(s: string)
    ensures |TrimEnd(s)| <= |s|
  {
    hide IsSpace;
    if s != "" && IsSpace(s[|s| - 1]) {
      EndShortens(s[..|s| - 1]);
    }
  }
}
