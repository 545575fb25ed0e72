/**
 The text of number files: the parser parseNumbers of common.go, the "%d\n" printing
 of Close, and their round trip. Text is a sequence of runes, as after Go's
 conversion of bytes to a string.
 */
module NumberText {
  import opened Base

  // ---------- splitting at white space (strings.Fields) ----------

  /** unicode.IsSpace */
  predicate IsSpace(c: char) {
    || c == '\t' || c == '\n' || c == '\U{000B}' || c == '\U{000C}' || c == '\r' || c == ' '
    || c == '\U{0085}' || c == '\U{00A0}' || c == '\U{1680}' || '\U{2000}' <= c <= '\U{200A}'
    || c == '\U{2028}' || c == '\U{2029}' || c == '\U{202F}' || c == '\U{205F}' || c == '\U{3000}'
  }

  function WordLength(s: string): (n: nat)
    ensures n <= |s|
    ensures forall i :: 0 <= i < n ==> !IsSpace(s[i])
    ensures n < |s| ==> IsSpace(s[n])
  {
    if s == "" || IsSpace(s[0]) then 0 else 1 + WordLength(s[1..])
  }

  /** The maximal runs of non-space runes, in order. */
  function Fields(s: string): seq<string>
    decreases |s|
  {
    if s == "" then []
    else if IsSpace(s[0]) then Fields(s[1..])
    else [s[..WordLength(s)]] + Fields(s[WordLength(s)..])
  }

  predicate IsWord(w: string) {
    w != "" && forall i :: 0 <= i < |w| ==> !IsSpace(w[i])
  }

  lemma {:induction false} WordLengthOfPrefix(w: string, rest: string)
    requires forall i :: 0 <= i < |w| ==> !IsSpace(w[i])
    requires rest == "" || IsSpace(rest[0])
    ensures WordLength(w + rest) == |w|
  {
    if w == "" {
      assert w + rest == rest;
    } else {
      assert (w + rest)[1..] == w[1..] + rest;
      WordLengthOfPrefix(w[1..], rest);
    }
  }

  lemma FieldsOfWord(w: string, rest: string)
    requires IsWord(w) && (rest == "" || IsSpace(rest[0]))
    ensures Fields(w + rest) == [w] + Fields(rest)
  {
    WordLengthOfPrefix(w, rest);
    assert (w + rest)[..|w|] == w && (w + rest)[|w|..] == rest;
    assert (w + rest)[0] == w[0];
  }

  lemma WordLengthBeforeSpace(a: string, c: char, b: string)
    requires IsSpace(c)
    ensures var n := WordLength(a);
            WordLength(a + [c] + b) == n && (a + [c] + b)[..n] == a[..n] && (a + [c] + b)[n..] == a[n..] + [c] + b
  {
    var n := WordLength(a);
    WordLengthOfPrefix(a[..n], a[n..] + [c] + b);
    assert a + [c] + b == a[..n] + (a[n..] + [c] + b);
  }

  /** Splitting distributes over concatenation at any space. */
  lemma {:induction false} FieldsConcat(a: string, c: char, b: string)
    requires IsSpace(c)
    ensures Fields(a + [c] + b) == Fields(a) + Fields(b)
    decreases |a|
  {
    if a == "" {
      assert a + [c] + b == [c] + b;
      assert ([c] + b)[1..] == b;
    } else if IsSpace(a[0]) {
      assert (a + [c] + b)[1..] == a[1..] + [c] + b;
      FieldsConcat(a[1..], c, b);
    } else {
      var n := WordLength(a);
      WordLengthBeforeSpace(a, c, b);
      assert (a + [c] + b)[0] == a[0];
      FieldsConcat(a[n..], c, b);
    }
  }

  // ---------- decimal numbers (strconv.ParseUint, "%d") ----------

  predicate IsDigit(c: char) {
    '0' <= c <= '9'
  }

  function Value(s: string): nat
    requires forall i :: 0 <= i < |s| ==> IsDigit(s[i])
  {
    if s == "" then 0 else
    assert IsDigit(s[|s| - 1]);
    Value(s[..|s| - 1]) * 10 + (s[|s| - 1] as int - '0' as int)
  }

  /** ParseUint(s, 10, 64): None is its syntax or range error. */
  function ParseUint(s: string): Option<uint64> {
    if s != "" && (forall i :: 0 <= i < |s| ==> IsDigit(s[i])) && Value(s) < TWO_64
    then Some(Value(s))
    else None
  }

  function Digits(n: nat): (s: string)
    ensures s != "" && forall i :: 0 <= i < |s| ==> IsDigit(s[i])
  {
    if n < 10 then [DigitChar(n)] else Digits(n / 10) + [DigitChar(n % 10)]
  }

  function DigitChar(n: nat): (c: char)
    requires n < 10
    ensures IsDigit(c) && c as int - '0' as int == n
  {
    ('0' as int + n) as char
  }

  lemma {:induction false} ValueOfDigits(n: nat)
    ensures Value(Digits(n)) == n
  {
    if n < 10 {
      assert Digits(n)[..0] == "";
    } else {
      ValueOfDigits(n / 10);
      assert Digits(n)[..|Digits(n)| - 1] == Digits(n / 10);
    }
  }

  lemma ParseUintOfDigits(n: uint64)
    ensures ParseUint(Digits(n)) == Some(n)
  {
    ValueOfDigits(n);
  }

  // ---------- files ----------

  /** The numbers of the fields that parse, in order; the others are skipped. */
  function NumbersOf(fields: seq<string>): seq<uint64> {
    if fields == [] then []
    else
      var rest := NumbersOf(fields[..|fields| - 1]);
      match ParseUint(fields[|fields| - 1])
      case Some(n) => rest + [n]
      case None => rest
  }

  function Parsed(data: string): seq<uint64> {
    NumbersOf(Fields(data))
  }

  method ParseNumbers(data: string) returns (nums: seq<uint64>)
    ensures nums == Parsed(data)
  {
    nums := [];
    var fields := Fields(data);
    for i := 0 to |fields|
      invariant nums == NumbersOf(fields[..i])
    {
      assert fields[..i + 1][..i] == fields[..i];
      var n := ParseUint(fields[i]);
      if n.Some? {
        nums := nums + [n.value];
      }
    }
    assert fields[..|fields|] == fields;
  }

  function Line(n: uint64): string {
    Digits(n) + "\n"
  }

  function Lines(ns: seq<uint64>): string {
    if ns == [] then "" else Lines(ns[..|ns| - 1]) + Line(ns[|ns| - 1])
  }

  lemma {:induction false} NumbersOfConcat(a: seq<string>, b: seq<string>)
    ensures NumbersOf(a + b) == NumbersOf(a) + NumbersOf(b)
  {
    if b == [] {
      assert a + b == a;
    } else {
      NumbersOfConcat(a, b[..|b| - 1]);
      assert (a + b)[..|a + b| - 1] == a + b[..|b| - 1];
    }
  }

  /** Parsing distributes over concatenation at any space. */
  lemma ParsedConcat(a: string, c: char, b: string)
    requires IsSpace(c)
    ensures Parsed(a + [c] + b) == Parsed(a) + Parsed(b)
  {
    FieldsConcat(a, c, b);
    NumbersOfConcat(Fields(a), Fields(b));
  }

  lemma DigitsIsWord(n: nat)
    ensures IsWord(Digits(n))
  {
  }

  lemma ParsedDigits(n: uint64)
    ensures Parsed(Digits(n)) == [n]
  {
    DigitsIsWord(n);
    FieldsOfWord(Digits(n), "");
    assert Digits(n) + "" == Digits(n);
    ParseUintOfDigits(n);
    assert NumbersOf([]) == [];
    assert [Digits(n)][..0] == [];
  }

  lemma ParsedTrailingSpace(a: string, c: char)
    requires IsSpace(c)
    ensures Parsed(a + [c]) == Parsed(a)
  {
    ParsedConcat(a, c, "");
    assert a + [c] + "" == a + [c];
    assert Fields("") == [];
  }

  lemma AppendedDigits(text: string, c: char, n: uint64)
    requires IsSpace(c)
    ensures Parsed(text + [c] + Digits(n)) == Parsed(text + [c]) + [n]
  {
    ParsedDigits(n);
    ParsedConcat(text, c, Digits(n));
    ParsedTrailingSpace(text, c);
  }

  lemma AppendedLine(text: string, n: uint64)
    requires text == "" || IsSpace(text[|text| - 1])
    ensures Parsed(text + Line(n)) == Parsed(text) + [n]
  {
    ParsedTrailingSpace(text + Digits(n), '\n');
    assert text + Digits(n) + ['\n'] == text + Line(n);
    if text == "" {
      ParsedDigits(n);
      assert text + Digits(n) == Digits(n);
      assert Fields("") == [];
    } else {
      AppendedDigits(text[..|text| - 1], text[|text| - 1], n);
      assert text[..|text| - 1] + [text[|text| - 1]] == text;
    }
  }

  /** Printing one number a line and parsing gives the numbers back. */
  lemma {:induction false} ParseInvertsPrint(ns: seq<uint64>)
    ensures Parsed(Lines(ns)) == ns
  {
    if ns == [] {
      assert Fields("") == [];
    } else {
      var front := ns[..|ns| - 1];
      ParseInvertsPrint(front);
      if front != [] { assert Lines(front)[|Lines(front)| - 1] == '\n'; }
      AppendedLine(Lines(front), ns[|ns| - 1]);
      assert front + [ns[|ns| - 1]] == ns;
    }
  }

  // ---------- fields that are not numbers ----------

  ghost predicate AllDigits(w: string) {
    forall i :: 0 <= i < |w| ==> IsDigit(w[i])
  }

  /** A word is a number exactly when it has only digits and its value is below 2^64. */
  lemma ParsedWord(w: string)
    requires IsWord(w)
    ensures AllDigits(w) && Value(w) < 0x1_0000_0000_0000_0000 ==> Parsed(w) == [Value(w)]
    ensures !AllDigits(w) || Value(w) >= 0x1_0000_0000_0000_0000 ==> Parsed(w) == []
  {
    FieldsOfWord(w, "");
    assert w + "" == w && Fields("") == [];
    assert [w][..0] == [] && NumbersOf([]) == [];
  }

  lemma SkippedBetween(a: string, c: char, w: string, d: char, b: string)
    requires IsSpace(c) && IsSpace(d) && Parsed(w) == []
    ensures Parsed(a + [c] + (w + [d] + b)) == Parsed(a) + Parsed(b)
  {
    ParsedConcat(w, d, b);
    ParsedConcat(a, c, w + [d] + b);
  }

  /** Between white space, a word with anything but a digit in it is skipped: a sign, a point, a
      letter. */
  lemma NonNumberIsSkipped(a: string, c: char, w: string, d: char, b: string, i: nat)
    requires IsSpace(c) && IsSpace(d) && IsWord(w) && i < |w| && !IsDigit(w[i])
    ensures Parsed(a + [c] + (w + [d] + b)) == Parsed(a) + Parsed(b)
  {
    ParsedWord(w);
    SkippedBetween(a, c, w, d, b);
  }

  lemma HugeWord(n: nat)
    requires n >= 0x1_0000_0000_0000_0000
    ensures Parsed(Digits(n)) == []
  {
    DigitsIsWord(n);
    ValueOfDigits(n);
    ParsedWord(Digits(n));
  }

  /** So is a number that needs more than 64 bits. */
  lemma HugeNumberIsSkipped(a: string, c: char, n: nat, d: char, b: string)
    requires IsSpace(c) && IsSpace(d) && n >= 0x1_0000_0000_0000_0000
    ensures Parsed(a + [c] + (Digits(n) + [d] + b)) == Parsed(a) + Parsed(b)
  {
    HugeWord(n);
    SkippedBetween(a, c, Digits(n), d, b);
  }

  /** Tab, line feed, vertical tab, form feed, carriage return and blank separate numbers; so do the
      other white space characters of Unicode. */
  lemma SpaceSeparates(m: uint64, c: char, n: uint64)
    requires c in {'\t', '\n', '\U{000B}', '\U{000C}', '\r', ' ', '\U{0085}', '\U{00A0}', '\U{1680}', '\U{2000}',
                   '\U{200A}', '\U{2028}', '\U{2029}', '\U{202F}', '\U{205F}', '\U{3000}'}
    ensures Parsed(Digits(m) + [c] + Digits(n)) == [m, n]
  {
    ParsedDigits(m);
    ParsedDigits(n);
    ParsedConcat(Digits(m), c, Digits(n));
  }

  lemma JoinedWord(v: string, c: char, w: string)
    requires IsWord(v) && IsWord(w) && !IsSpace(c) && !IsDigit(c)
    ensures Parsed(v + [c] + w) == []
  {
    var joined := v + [c] + w;
    assert joined[|v|] == c;
    ParsedWord(joined);
  }

  /** Other characters make one word of both, which is skipped. */
  lemma OtherDoesNotSeparate(m: uint64, c: char, n: uint64)
    requires c in {',', ';', '.', '-', '+', '_', 'x'}
    ensures Parsed(Digits(m) + [c] + Digits(n)) == []
  {
    DigitsIsWord(m);
    DigitsIsWord(n);
    JoinedWord(Digits(m), c, Digits(n));
  }

  lemma {:induction false} LeadingZero(w: string)
    requires AllDigits(w)
    ensures AllDigits("0" + w) && Value("0" + w) == Value(w)
  {
    if w == "" {
      assert "0"[..0] == "";
    } else {
      LeadingZero(w[..|w| - 1]);
      assert ("0" + w)[..|w|] == "0" + w[..|w| - 1];
    }
  }

  /** Leading zeros do not change a number. */
  lemma LeadingZeroIsIgnored(n: uint64)
    ensures Parsed("0" + Digits(n)) == [n]
  {
    DigitsIsWord(n);
    ValueOfDigits(n);
    LeadingZero(Digits(n));
    ParsedWord("0" + Digits(n));
  }
}
