/**
 The result string of the C API and the reader its Python client applies to it:
 records separated by ';', fields by ':', with both characters percent-encoded in texts.
 */
module ResultFormat {
  import opened Common
  import opened Text
  import opened Results

  function EscapeChar(c: char): string
  {
    if c == ':' then "%3A" else if c == ';' then "%3B" else [c]
  }

  function Escape(s: string): string
  {
    if s == [] then [] else EscapeChar(s[0]) + Escape(s[1..])
  }

  method EscapeField(s: string) returns (out: string)
    ensures out == Escape(s)
  {
    out := [];
    for i := 0 to |s|
      invariant out + Escape(s[i..]) == Escape(s)
    {
      EscapeStep(s, i);
      ghost var rest := Escape(s[i + 1..]);
      assert out + (EscapeChar(s[i]) + rest) == (out + EscapeChar(s[i])) + rest;
      if s[i] == ':' {
        out := out + "%3A";
      } else if s[i] == ';' {
        out := out + "%3B";
      } else {
        out := out + [s[i]];
      }
    }
  }

  lemma EscapeStep(s: string, i: nat)
    requires i < |s|
    ensures Escape(s[i..]) == EscapeChar(s[i]) + Escape(s[i + 1..])
  {
    assert s[i..][1..] == s[i + 1..];
  }

  function Fields(r: RuleResult): (fields: seq<string>)
    ensures |fields| == if r.exception.Some? then 4 else 3
  {
    [Decimal(r.ruleId), Escape(r.ruleName), if r.IsSuccess() then "1" else "0"] +
    if r.exception.Some? then [Escape(CString(r.exception.value))] else []
  }

  function Record(r: RuleResult): string
  {
    Join(Fields(r), ':')
  }

  function Records(results: seq<RuleResult>): (parts: seq<string>)
    ensures |parts| == |results| && forall i :: 0 <= i < |parts| ==> parts[i] == Record(results[i])
  {
    seq(|results|, i requires 0 <= i < |results| => Record(results[i]))
  }

  /** The text a client receives for these results. */
  function Wire(results: seq<RuleResult>): string
  {
    CString(Join(Records(results), ';'))
  }

  lemma {:induction false} JoinLast(parts: seq<string>, x: string, sep: char)
    ensures Join(parts + [x], sep) == if parts == [] then x else Join(parts, sep) + [sep] + x
  {
    if parts != [] {
      JoinLast(parts[1..], x, sep);
      assert (parts + [x])[1..] == parts[1..] + [x];
    }
  }

  lemma JoinThree(a: string, b: string, c: string)
    ensures Join([a, b, c], ':') == a + ":" + b + ":" + c
  {
    assert [a, b, c][1..] == [b, c];
    assert [b, c][1..] == [c];
    assert Join([b, c], ':') == b + ":" + c;
  }

  /** Appending field by field writes the joined record. */
  method FormatRecord(r: RuleResult) returns (out: string)
    ensures out == Record(r)
  {
    var name := EscapeField(r.ruleName);
    var flag := if r.IsSuccess() then "1" else "0";
    ghost var three := [Decimal(r.ruleId), name, flag];
    JoinThree(Decimal(r.ruleId), name, flag);
    out := Decimal(r.ruleId) + ":" + name + ":" + flag;
    assert out == Join(three, ':');
    if r.exception.Some? {
      var message := EscapeField(CString(r.exception.value));
      JoinLast(three, message, ':');
      assert Fields(r) == three + [message];
      out := out + ":" + message;
    } else {
      assert Fields(r) == three;
    }
  }

  method FormatResults(results: seq<RuleResult>) returns (output: string)
    ensures output == Wire(results)
  {
    var oss := "";
    for i := 0 to |results|
      invariant oss == Join(Records(results[..i]), ';')
    {
      ghost var done := Records(results[..i]);
      assert Records(results[..i + 1]) == done + [Record(results[i])];
      JoinLast(done, Record(results[i]), ';');
      if i > 0 {
        oss := oss + ";";
      }
      var record := FormatRecord(results[i]);
      oss := oss + record;
    }
    assert results[..|results|] == results;
    output := CString(oss);
  }

  // ----- the reader -----

  datatype Entry = Entry(id: int, name: string, success: bool, error: Option<string>)

  /** The characters that Python's strip and int remove at both ends. */
  predicate IsPythonSpace(c: char)
  {
    || c == ' ' || '\t' <= c <= '\r' || '\U{1c}' <= c <= '\U{1f}' || c == '\U{85}' || c == '\U{a0}' || c == '\U{1680}'
    || '\U{2000}' <= c <= '\U{200a}' || c == '\U{2028}' || c == '\U{2029}' || c == '\U{202f}' || c == '\U{205f}' || c == '\U{3000}'
  }

  function StripLeft(s: string): string
  {
    if s != [] && IsPythonSpace(s[0]) then StripLeft(s[1..]) else s
  }

  function StripRight(s: string): string
  {
    if s != [] && IsPythonSpace(s[|s| - 1]) then StripRight(s[..|s| - 1]) else s
  }

  function Strip(s: string): string
  {
    StripRight(StripLeft(s))
  }

  /** Digits, with single underscores allowed between them. */
  function PythonDigits(s: string): Option<nat>
  {
    if s == [] then None
    else
      var c := s[|s| - 1];
      if c < '0' || c > '9' then None
      else
        var low := (c - '0') as nat;
        if |s| == 1 then Some(low)
        else
          var rest := if s[|s| - 2] == '_' then s[..|s| - 2] else s[..|s| - 1];
          var high := PythonDigits(rest);
          if high.None? then None else Some(10 * high.value + low)
  }

  /** What `int` makes of a text: blanks around it and one sign are allowed. */
  function PythonInt(text: string): Option<int>
  {
    var s := Strip(text);
    if s != [] && s[0] == '-' then Negate(PythonDigits(s[1..]))
    else if s != [] && s[0] == '+' then PythonDigits(s[1..])
    else PythonDigits(s)
  }

  lemma {:induction false} PlainDigits(s: string)
    requires '_' !in s
    ensures PythonDigits(s) == ParseDigits(s)
  {
    if |s| > 1 {
      assert s[|s| - 2] in s;
      PlainDigits(s[..|s| - 1]);
    }
  }

  lemma StripKeeps(s: string)
    requires s != [] && !IsPythonSpace(s[0]) && !IsPythonSpace(s[|s| - 1])
    ensures Strip(s) == s
  {
  }

  /** On texts without blanks, underscores and plus signs, `int` reads plain decimal notation. */
  lemma PlainInt(s: string)
    requires s != [] && !IsPythonSpace(s[0]) && !IsPythonSpace(s[|s| - 1]) && '_' !in s && s[0] != '+'
    ensures PythonInt(s) == ParseInt(s)
  {
    StripKeeps(s);
    PlainDigits(s);
    PlainDigits(s[1..]);
  }

  lemma DecimalReadsBack(i: int)
    ensures PythonInt(Decimal(i)) == Some(i)
  {
    PlainInt(Decimal(i));
    DecimalParse(i);
  }

  /** One part of the string: None where the reader skips it. */
  function ReadEntry(part: string): Option<Entry>
  {
    var fields := Split(part, ':');
    if Strip(part) == "" || |fields| < 3 then None
    else
      var id := PythonInt(fields[0]);
      if id.None? then None
      else Some(Entry(id.value, fields[1], fields[2] == "1", if |fields| > 3 then Some(fields[3]) else None))
  }

  method ParseResults(text: string) returns (entries: seq<Entry>)
    ensures entries == ReadAll(if text == "" then [] else Split(text, ';'))
  {
    entries := [];
    if text == "" {
      return;
    }
    var parts := Split(text, ';');
    for i := 0 to |parts|
      invariant entries + ReadAll(parts[i..]) == ReadAll(parts)
    {
      var entry := ReadEntry(parts[i]);
      ReadStep(parts, i, entry);
      if entry.Some? {
        Regroup(entries, [entry.value], ReadAll(parts[i + 1..]));
        entries := entries + [entry.value];
      }
    }
    assert parts[|parts|..] == [];
  }

  lemma ReadStep(parts: seq<string>, i: nat, entry: Option<Entry>)
    requires i < |parts| && entry == ReadEntry(parts[i])
    ensures ReadAll(parts[i..]) == (if entry.Some? then [entry.value] else []) + ReadAll(parts[i + 1..])
  {
    assert parts[i..][0] == parts[i] && parts[i..][1..] == parts[i + 1..];
  }

  function ReadAll(parts: seq<string>): seq<Entry>
  {
    if parts == [] then []
    else
      var entry := ReadEntry(parts[0]);
      (if entry.Some? then [entry.value] else []) + ReadAll(parts[1..])
  }

  /** What a reader should get for a result. */
  function Expected(r: RuleResult): Entry
  {
    Entry(r.ruleId, Escape(r.ruleName), r.IsSuccess(),
          if r.exception.Some? then Some(Escape(CString(r.exception.value))) else None)
  }

  // ----- round trip -----

  lemma {:induction false} EscapeClean(s: string, c: char)
    requires c == ':' || c == ';' || (c == '\0' && c !in s)
    ensures c !in Escape(s)
  {
    if s != [] {
      EscapeClean(s[1..], c);
    }
  }

  lemma FieldsClean(r: RuleResult, i: nat, c: char)
    requires i < |Fields(r)| && (c == ':' || c == ';' || (c == '\0' && c !in r.ruleName))
    ensures c !in Fields(r)[i]
  {
    EscapeClean(r.ruleName, c);
    if r.exception.Some? {
      CStringClean(r.exception.value);
      EscapeClean(CString(r.exception.value), c);
    }
  }

  lemma {:induction false} JoinClean(parts: seq<string>, sep: char, c: char)
    requires c != sep && forall i :: 0 <= i < |parts| ==> c !in parts[i]
    ensures c !in Join(parts, sep)
  {
    if |parts| > 1 {
      JoinClean(parts[1..], sep, c);
    }
  }

  lemma RecordClean(r: RuleResult, c: char)
    requires c == ';' || (c == '\0' && c !in r.ruleName)
    ensures c !in Record(r)
  {
    forall i | 0 <= i < |Fields(r)|
      ensures c !in Fields(r)[i]
    {
      FieldsClean(r, i, c);
    }
    JoinClean(Fields(r), ':', c);
  }

  lemma JoinStart(parts: seq<string>, sep: char)
    requires parts != [] && parts[0] != []
    ensures Join(parts, sep) != [] && Join(parts, sep)[0] == parts[0][0]
  {
  }

  /** A text that starts with something other than a blank does not strip to nothing. */
  lemma NotBlank(s: string)
    requires s != [] && !IsPythonSpace(s[0])
    ensures Strip(s) != ""
  {
    StripRightStarts(s);
  }

  lemma {:induction false} StripRightStarts(s: string)
    requires s != [] && !IsPythonSpace(s[0])
    ensures StripRight(s) != "" && StripRight(s)[0] == s[0]
  {
    if IsPythonSpace(s[|s| - 1]) {
      StripRightStarts(s[..|s| - 1]);
    }
  }

  lemma ReadRecord(r: RuleResult)
    ensures ReadEntry(Record(r)) == Some(Expected(r))
  {
    forall i | 0 <= i < |Fields(r)|
      ensures ':' !in Fields(r)[i]
    {
      FieldsClean(r, i, ':');
    }
    SplitJoin(Fields(r), ':');
    DecimalReadsBack(r.ruleId);
    JoinStart(Fields(r), ':');
    NotBlank(Record(r));
  }

  lemma {:induction false} ReadRecords(results: seq<RuleResult>)
    ensures |ReadAll(Records(results))| == |results|
    ensures forall i :: 0 <= i < |results| ==> ReadAll(Records(results))[i] == Expected(results[i])
  {
    if results != [] {
      ReadRecord(results[0]);
      ReadRecords(results[1..]);
      assert Records(results)[1..] == Records(results[1..]);
    }
  }

  /** Reading the string back gives exactly one entry per result, in order, with id, escaped name, flag and escaped error. */
  lemma RoundTrip(results: seq<RuleResult>)
    requires forall i :: 0 <= i < |results| ==> '\0' !in results[i].ruleName
    ensures var text := Wire(results);
            var entries := ReadAll(if text == "" then [] else Split(text, ';'));
            |entries| == |results| && forall i :: 0 <= i < |results| ==> entries[i] == Expected(results[i])
  {
    var parts := Records(results);
    forall i | 0 <= i < |parts|
      ensures ';' !in parts[i] && '\0' !in parts[i]
    {
      RecordClean(results[i], ';');
      RecordClean(results[i], '\0');
    }
    JoinClean(parts, ';', '\0');
    CStringKeeps(Join(parts, ';'));
    if results != [] {
      SplitJoin(parts, ';');
      JoinStart(Fields(results[0]), ':');
      JoinStart(parts, ';');
      ReadRecords(results);
    }
  }

  // ----- decoding the texts -----

  predicate StartsWithCode(s: string)
  {
    |s| >= 3 && s[0] == '%' && s[1] == '3' && (s[2] == 'A' || s[2] == 'B')
  }

  function Unescape(s: string): (t: string)
    ensures |t| <= |s|
  {
    if s == [] then []
    else if StartsWithCode(s) then [if s[2] == 'A' then ':' else ';'] + Unescape(s[3..])
    else [s[0]] + Unescape(s[1..])
  }

  /** No "%3A" and no "%3B" anywhere. */
  ghost predicate CodeFree(s: string)
  {
    forall i :: 0 <= i < |s| ==> !StartsWithCode(s[i..])
  }

  /** A code in the encoding comes from a code or from a delimiter, never from something in between. */
  lemma CodesComeFromCodes(s: string)
    requires s != [] && s[0] != ':' && s[0] != ';'
    ensures StartsWithCode(Escape(s)) <==> StartsWithCode(s)
  {
    if |s| >= 2 {
      assert Escape(s)[1..] == Escape(s[1..]);
      if |s| >= 3 && s[1] != ':' && s[1] != ';' {
        assert Escape(s[1..])[1..] == Escape(s[2..]) by {
          assert s[1..][1..] == s[2..];
        }
      }
    }
  }

  lemma EscapeCode(s: string)
    requires StartsWithCode(s)
    ensures Escape(s) == s[..3] + Escape(s[3..])
  {
    assert s[1..][1..] == s[2..] && s[2..][1..] == s[3..];
    assert Escape(s[2..]) == [s[2]] + Escape(s[3..]);
    assert Escape(s[1..]) == [s[1]] + Escape(s[2..]);
    assert Escape(s) == [s[0]] + Escape(s[1..]);
  }

  lemma {:induction false} UnescapeEscape(s: string)
    ensures Unescape(Escape(s)) == Unescape(s)
  {
    if s == [] {
    } else if StartsWithCode(s) {
      EscapeCode(s);
      UnescapeEscape(s[3..]);
      assert Escape(s)[3..] == Escape(s[3..]);
    } else {
      UnescapeEscape(s[1..]);
      if s[0] == ':' || s[0] == ';' {
        assert Escape(s)[3..] == Escape(s[1..]);
      } else {
        CodesComeFromCodes(s);
        assert Escape(s)[1..] == Escape(s[1..]);
      }
    }
  }

  lemma {:induction false} UnescapeFixed(s: string)
    ensures Unescape(s) == s <==> CodeFree(s)
  {
    if s != [] {
      UnescapeFixed(s[1..]);
      assert s == [s[0]] + s[1..] && s[0..] == s;
      if CodeFree(s) {
        forall i | 0 <= i < |s[1..]|
          ensures !StartsWithCode(s[1..][i..])
        {
          assert s[1..][i..] == s[i + 1..];
        }
      }
      if CodeFree(s[1..]) && !StartsWithCode(s) {
        forall i | 0 <= i < |s|
          ensures !StartsWithCode(s[i..])
        {
          assert i > 0 ==> s[i..] == s[1..][i - 1..];
        }
      }
      if !StartsWithCode(s) {
        assert Unescape(s) == s <==> Unescape(s[1..]) == s[1..];
      }
    }
  }

  /** Decoding recovers a text exactly when it contains neither code to begin with. */
  lemma DecodableIffCodeFree(s: string)
    ensures Unescape(Escape(s)) == s <==> CodeFree(s)
  {
    UnescapeEscape(s);
    UnescapeFixed(s);
  }

  /** So on such texts the encoding is injective. */
  lemma EscapeInjective(s: string, t: string)
    requires CodeFree(s) && CodeFree(t) && Escape(s) == Escape(t)
    ensures s == t
  {
    DecodableIffCodeFree(s);
    DecodableIffCodeFree(t);
  }

  lemma {:induction false} EscapeUnescape(s: string)
    ensures Escape(Unescape(s)) == Escape(s)
  {
    if StartsWithCode(s) {
      EscapeUnescape(s[3..]);
      EscapeCode(s);
      assert Unescape(s)[1..] == Unescape(s[3..]);
      assert s[..3] == EscapeChar(Unescape(s)[0]);
    } else if s != [] {
      EscapeUnescape(s[1..]);
      assert Unescape(s)[1..] == Unescape(s[1..]);
    }
  }

  /** In general two texts are written alike exactly if reading their codes makes them equal. */
  lemma SameEncodingIff(s: string, t: string)
    ensures Escape(s) == Escape(t) <==> Unescape(s) == Unescape(t)
  {
    UnescapeEscape(s);
    UnescapeEscape(t);
    EscapeUnescape(s);
    EscapeUnescape(t);
  }

  /** The two codes. */
  lemma Codes()
    ensures Escape(":") == "%3A" && Escape(";") == "%3B"
  {
    assert ":"[1..] == "" && ";"[1..] == "";
  }

  lemma RecordOfSuccess(r: RuleResult)
    requires r.ruleId == 7 && r.IsSuccess()
    ensures Record(r) == "7:" + Escape(r.ruleName) + ":1"
  {
    assert Digits(7) == "7";
    JoinThree("7", Escape(r.ruleName), "1");
    assert Fields(r) == ["7", Escape(r.ruleName), "1"];
  }

  lemma RecordOfFailure(r: RuleResult)
    requires r.ruleId == -3 && r.exception.Some? && '\0' !in r.exception.value
    ensures Record(r) == "-3:" + Escape(r.ruleName) + ":0:" + Escape(r.exception.value)
  {
    var message := Escape(r.exception.value);
    assert Digits(3) == "3" && Decimal(-3) == "-3";
    CStringKeeps(r.exception.value);
    JoinThree("-3", Escape(r.ruleName), "0");
    JoinLast(["-3", Escape(r.ruleName), "0"], message, ':');
    assert Fields(r) == ["-3", Escape(r.ruleName), "0"] + [message];
    assert "-3:" + Escape(r.ruleName) + ":0:" + message == "-3" + ":" + Escape(r.ruleName) + ":" + "0" + [':'] + message;
  }

  /** What a client receives for a success and a failure. */
  lemma WireExample(a: RuleResult, b: RuleResult)
    requires a.ruleId == 7 && a.IsSuccess() && b.ruleId == -3 && b.exception.Some?
    requires '\0' !in a.ruleName && '\0' !in b.ruleName && '\0' !in b.exception.value
    ensures Wire([a, b]) == ("7:" + Escape(a.ruleName) + ":1") + ";" + ("-3:" + Escape(b.ruleName) + ":0:" + Escape(b.exception.value))
  {
    RecordOfSuccess(a);
    RecordOfFailure(b);
    JoinLast([Record(a)], Record(b), ';');
    assert Records([a, b]) == [Record(a)] + [Record(b)];
    RecordClean(a, '\0');
    RecordClean(b, '\0');
    JoinClean(Records([a, b]), ';', '\0');
    CStringKeeps(Join(Records([a, b]), ';'));
  }

  /** So without the restriction the encoding is not injective. */
  lemma EscapeCollides()
    ensures Escape(":") == Escape("%3A")
  {
    assert "%3A"[1..] == "3A" && "3A"[1..] == "A" && "A"[1..] == "" && ":"[1..] == "";
  }

  ghost predicate PlainText(s: string)
  {
    '\0' !in s && CodeFree(s)
  }

  ghost predicate PlainTexts(results: seq<RuleResult>)
  {
    forall j :: 0 <= j < |results| ==>
      PlainText(results[j].ruleName) && (results[j].exception.Some? ==> PlainText(results[j].exception.value))
  }

  /** Equal strings mean equal results, field by field, when all texts are free of NUL and of the codes. */
  lemma WireInjective(a: seq<RuleResult>, b: seq<RuleResult>, i: nat)
    requires PlainTexts(a) && PlainTexts(b) && Wire(a) == Wire(b)
    ensures |a| == |b|
    ensures i < |a| ==> a[i].ruleId == b[i].ruleId && a[i].ruleName == b[i].ruleName
    ensures i < |a| ==> a[i].IsSuccess() == b[i].IsSuccess() && a[i].exception == b[i].exception
  {
    RoundTrip(a);
    RoundTrip(b);
    if i < |a| {
      assert Expected(a[i]) == Expected(b[i]);
      EscapeInjective(a[i].ruleName, b[i].ruleName);
      if a[i].exception.Some? {
        CStringKeeps(a[i].exception.value);
        CStringKeeps(b[i].exception.value);
        EscapeInjective(a[i].exception.value, b[i].exception.value);
      }
    }
  }
}
