/** Decimal notation of integers, taking text apart at a separator, and text that passes through a C string. */
module Text {
  import opened Common

  function Digit(n: nat): (c: char)
    requires n < 10
    ensures '0' <= c <= '9'
  {
    '0' + n as char
  }

  /** A natural number in decimal, without leading zeros. */
  function Digits(n: nat): (s: string)
    ensures |s| > 0 && forall i :: 0 <= i < |s| ==> '0' <= s[i] <= '9'
  {
    if n < 10 then [Digit(n)] else Digits(n / 10) + [Digit(n % 10)]
  }

  function Decimal(i: int): (s: string)
    ensures |s| > 0 && forall k :: 0 <= k < |s| ==> s[k] == '-' || '0' <= s[k] <= '9'
  {
    if i < 0 then "-" + Digits(-i) else Digits(i)
  }

  /** The value of a string of digits, if it is one. */
  function ParseDigits(s: string): Option<nat>
  {
    if s == [] then None
    else
      var c := s[|s| - 1];
      if c < '0' || c > '9' then None
      else
        var low := (c - '0') as nat;
        if |s| == 1 then Some(low)
        else
          var high := ParseDigits(s[..|s| - 1]);
          if high.None? then None else Some(10 * high.value + low)
  }

  function Negate(n: Option<nat>): Option<int>
  {
    if n.None? then None else var v: int := n.value; Some(-v)
  }

  function ParseInt(s: string): Option<int>
  {
    if s != [] && s[0] == '-' then Negate(ParseDigits(s[1..])) else ParseDigits(s)
  }

  lemma {:induction false} DigitsParse(n: nat)
    ensures ParseDigits(Digits(n)) == Some(n)
  {
    if n >= 10 {
      DigitsParse(n / 10);
      var s := Digits(n);
      assert s[..|s| - 1] == Digits(n / 10);
    }
  }

  lemma ParseNegative(s: string)
    ensures ParseInt("-" + s) == Negate(ParseDigits(s))
  {
    assert ("-" + s)[1..] == s;
  }

  lemma DecimalParse(i: int)
    ensures ParseInt(Decimal(i)) == Some(i)
  {
    if i < 0 {
      DigitsParse(-i);
      ParseNegative(Digits(-i));
    } else {
      DigitsParse(i);
    }
  }

  lemma DecimalInjective(i: int, j: int)
    requires Decimal(i) == Decimal(j)
    ensures i == j
  {
    DecimalParse(i);
    DecimalParse(j);
  }

  /** The pieces between occurrences of the separator; always at least one piece. */
  function Split(s: string, sep: char): (parts: seq<string>)
    ensures |parts| > 0
  {
    if s == [] then [[]]
    else
      var rest := Split(s[1..], sep);
      if s[0] == sep then [[]] + rest else [[s[0]] + rest[0]] + rest[1..]
  }

  function Join(parts: seq<string>, sep: char): string
  {
    if parts == [] then []
    else if |parts| == 1 then parts[0]
    else parts[0] + [sep] + Join(parts[1..], sep)
  }

  lemma {:induction false} SplitPlain(s: string, sep: char)
    requires sep !in s
    ensures Split(s, sep) == [s]
  {
    if s != [] {
      SplitPlain(s[1..], sep);
      assert s == [s[0]] + s[1..];
    }
  }

  lemma {:induction false} SplitAfter(head: string, rest: string, sep: char)
    requires sep !in head
    ensures Split(head + [sep] + rest, sep) == [head] + Split(rest, sep)
  {
    var s := head + [sep] + rest;
    if head == [] {
      assert s[1..] == rest;
    } else {
      SplitAfter(head[1..], rest, sep);
      assert s[1..] == head[1..] + [sep] + rest;
      assert head == [head[0]] + head[1..];
    }
  }

  /** Splitting undoes joining when no part contains the separator. */
  lemma {:induction false} SplitJoin(parts: seq<string>, sep: char)
    requires parts != [] && forall i :: 0 <= i < |parts| ==> sep !in parts[i]
    ensures Split(Join(parts, sep), sep) == parts
  {
    if |parts| == 1 {
      SplitPlain(parts[0], sep);
    } else {
      SplitAfter(parts[0], Join(parts[1..], sep), sep);
      SplitJoin(parts[1..], sep);
      assert parts == [parts[0]] + parts[1..];
    }
  }

  /** What is left of a text once it has passed through a C string. */
  function CString(s: string): string
  {
    if s == [] || s[0] == '\0' then [] else [s[0]] + CString(s[1..])
  }

  lemma {:induction false} CStringClean(s: string)
    ensures '\0' !in CString(s)
  {
    if s != [] && s[0] != '\0' {
      CStringClean(s[1..]);
    }
  }

  lemma {:induction false} CStringKeeps(s: string)
    requires '\0' !in s
    ensures CString(s) == s
  {
    if s != [] {
      CStringKeeps(s[1..]);
    }
  }

  /** The characters that C's isspace accepts. */
  predicate IsSpace(c: char)
  {
    c == ' ' || '\t' <= c <= '\r'
  }

  predicate IsBlank(s: string)
  {
    forall i :: 0 <= i < |s| ==> IsSpace(s[i])
  }
}
