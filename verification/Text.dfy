/** The Go string operations that command texts go through. */
module Text {
  import opened Options

  /** White space as Go's unicode.IsSpace has it. */
  predicate IsSpace(c: char) {
    || c == '\t' || c == '\n' || c == '\U{0B}' || c == '\U{0C}' || c == '\r' || c == ' '
    || c == '\U{85}' || c == '\U{A0}' || c == '\U{1680}' || '\U{2000}' <= c <= '\U{200A}'
    || c == '\U{2028}' || c == '\U{2029}' || c == '\U{202F}' || c == '\U{205F}' || c == '\U{3000}'
  }

  predicate NoSpace(s: string) {
    forall i :: 0 <= i < |s| ==> !IsSpace(s[i])
  }

  function DropSpaces(s: string): (r: string)
    ensures |r| <= |s| && (r == "" || !IsSpace(r[0]))
  {
    if s != "" && IsSpace(s[0]) then DropSpaces(s[1..]) else s
  }

  function DropTrailing(s: string): (r: string)
    ensures r <= s
  {
    if s != "" && IsSpace(s[|s|-1]) then DropTrailing(s[..|s|-1]) else s
  }

  function TrimSpace(s: string): string {
    DropTrailing(DropSpaces(s))
  }

  /** The longest prefix without white space. */
  function Word(s: string): (r: string)
    ensures r <= s && NoSpace(r) && (s != "" && !IsSpace(s[0]) ==> r != "")
    ensures |r| < |s| ==> IsSpace(s[|r|])
  {
    if s == "" || IsSpace(s[0]) then "" else [s[0]] + Word(s[1..])
  }

  /** strings.Fields */
  function Fields(s: string): seq<string>
    decreases |s|
  {
    var t := DropSpaces(s);
    if t == "" then [] else [Word(t)] + Fields(t[|Word(t)|..])
  }

  function Join(words: seq<string>, sep: string): string {
    if words == [] then ""
    else if |words| == 1 then words[0]
    else words[0] + sep + Join(words[1..], sep)
  }

  function NonEmpty(words: seq<string>): seq<string> {
    if words == [] then [] else (if words[0] == "" then [] else [words[0]]) + NonEmpty(words[1..])
  }

  predicate SpaceFree(words: seq<string>) {
    forall i :: 0 <= i < |words| ==> NoSpace(words[i])
  }

  /******* Splitting undoes joining *******/

  lemma {:induction false} WordStops(w: string, rest: string)
    requires NoSpace(w) && (rest == "" || IsSpace(rest[0]))
    ensures Word(w + rest) == w
    decreases |w|
  {
    if w == "" {
      assert w + rest == rest;
    } else {
      assert (w + rest)[0] == w[0] && (w + rest)[1..] == w[1..] + rest;
      WordStops(w[1..], rest);
      assert w == [w[0]] + w[1..];
    }
  }

  lemma FieldsOfSpace(s: string)
    requires s != "" && IsSpace(s[0])
    ensures Fields(s) == Fields(s[1..])
  {
  }

  /** A word followed by a separator is the first field. */
  lemma FieldsFirst(w: string, rest: string)
    requires NoSpace(w) && (rest == "" || IsSpace(rest[0]))
    ensures Fields(w + rest) == if w == "" then Fields(rest) else [w] + Fields(rest)
  {
    var s := w + rest;
    if w == "" {
      assert s == rest;
    } else {
      assert s[0] == w[0] && DropSpaces(s) == s;
      WordStops(w, rest);
      assert s[|w|..] == rest;
    }
  }

  /** Fields of a text printed with single blanks are its non-empty words. */
  lemma {:induction false} FieldsOfJoin(words: seq<string>)
    requires SpaceFree(words)
    ensures Fields(Join(words, " ")) == NonEmpty(words)
    decreases |words|
  {
    if words == [] {
    } else if |words| == 1 {
      FieldsFirst(words[0], "");
      assert words[0] + "" == words[0];
      assert NonEmpty(words[1..]) == [];
    } else {
      var rest := " " + Join(words[1..], " ");
      assert Join(words, " ") == words[0] + rest;
      FieldsFirst(words[0], rest);
      FieldsOfSpace(rest);
      assert rest[1..] == Join(words[1..], " ");
      FieldsOfJoin(words[1..]);
    }
  }

  lemma {:induction false} NonEmptyIsAll(words: seq<string>)
    requires forall i :: 0 <= i < |words| ==> words[i] != ""
    ensures NonEmpty(words) == words
    decreases |words|
  {
    if words != [] {
      NonEmptyIsAll(words[1..]);
      assert words == [words[0]] + words[1..];
    }
  }

  /******* Trimming does not change the fields *******/

  lemma {:induction false} FieldsDropSpaces(s: string)
    ensures Fields(DropSpaces(s)) == Fields(s)
    decreases |s|
  {
    if s != "" && IsSpace(s[0]) {
      FieldsDropSpaces(s[1..]);
    }
  }

  lemma {:induction false} FieldsAppendSpace(s: string, c: char)
    requires IsSpace(c)
    ensures Fields(s + [c]) == Fields(s)
    decreases |s|
  {
    if s == "" {
      assert s + [c] == [c] && [c][1..] == "";
      FieldsOfSpace([c]);
    } else if IsSpace(s[0]) {
      assert (s + [c])[0] == s[0] && (s + [c])[1..] == s[1..] + [c];
      FieldsOfSpace(s + [c]);
      FieldsOfSpace(s);
      FieldsAppendSpace(s[1..], c);
    } else {
      var w := Word(s);
      var rest := s[|w|..];
      assert s == w + rest;
      assert s + [c] == w + (rest + [c]);
      FieldsFirst(w, rest);
      FieldsFirst(w, rest + [c]);
      FieldsAppendSpace(rest, c);
    }
  }

  lemma {:induction false} FieldsDropTrailing(s: string)
    ensures Fields(DropTrailing(s)) == Fields(s)
    decreases |s|
  {
    if s != "" && IsSpace(s[|s|-1]) {
      FieldsDropTrailing(s[..|s|-1]);
      FieldsAppendSpace(s[..|s|-1], s[|s|-1]);
      assert s == s[..|s|-1] + [s[|s|-1]];
    }
  }

  lemma FieldsOfTrimmed(s: string)
    ensures Fields(TrimSpace(s)) == Fields(s)
  {
    FieldsDropSpaces(s);
    FieldsDropTrailing(DropSpaces(s));
  }

  /** A text without white space is its own trimmed form. */
  lemma TrimOfWord(s: string)
    requires NoSpace(s)
    ensures TrimSpace(s) == s
  {
  }

  /******* Numbers and flags *******/

  const MAX_INT: int := 0x7FFF_FFFF_FFFF_FFFF

  function Digit(d: nat): char
    requires d < 10
  {
    '0' + d as char
  }

  /** Decimal digits of a number, as %d prints it. */
  function Itoa(n: nat): (r: string)
    ensures r != "" && forall i :: 0 <= i < |r| ==> '0' <= r[i] <= '9'
  {
    if n < 10 then [Digit(n)] else Itoa(n / 10) + [Digit(n % 10)]
  }

  predicate AllDigits(s: string) {
    s != "" && forall i :: 0 <= i < |s| ==> '0' <= s[i] <= '9'
  }

  function Number(s: string): nat
    requires forall i :: 0 <= i < |s| ==> '0' <= s[i] <= '9'
  {
    if s == "" then 0 else Number(s[..|s|-1]) * 10 + (s[|s|-1] as int - '0' as int)
  }

  /** strconv.Atoi on a 64-bit platform. */
  function Atoi(s: string): Option<int> {
    var negative := s != "" && s[0] == '-';
    var digits := if s != "" && (s[0] == '-' || s[0] == '+') then s[1..] else s;
    if !AllDigits(digits) then None
    else
      var magnitude: int := Number(digits);
      var n := if negative then -magnitude else magnitude;
      if -MAX_INT - 1 <= n <= MAX_INT then Some(n) else None
  }

  lemma {:induction false} NumberOfItoa(n: nat)
    ensures Number(Itoa(n)) == n
    decreases n
  {
    var r := Itoa(n);
    if n < 10 {
      assert r[..|r|-1] == "";
    } else {
      NumberOfItoa(n / 10);
      assert r[..|r|-1] == Itoa(n / 10);
    }
  }

  /** Reading back a printed number. */
  lemma AtoiOfItoa(n: nat)
    requires n <= MAX_INT
    ensures Atoi(Itoa(n)) == Some(n) && NoSpace(Itoa(n)) && Itoa(n) != ""
  {
    NumberOfItoa(n);
  }

  function FormatBool(b: bool): string {
    if b then "true" else "false"
  }

  /** strconv.ParseBool */
  function ParseBool(s: string): Option<bool> {
    if s in {"1", "t", "T", "TRUE", "true", "True"} then Some(true)
    else if s in {"0", "f", "F", "FALSE", "false", "False"} then Some(false)
    else None
  }

  /** strings.Trim with the double quote as cut set. */
  function TrimQuotes(s: string): string {
    TrimRightQuotes(TrimLeftQuotes(s))
  }

  function TrimLeftQuotes(s: string): string {
    if s != "" && s[0] == '"' then TrimLeftQuotes(s[1..]) else s
  }

  function TrimRightQuotes(s: string): string {
    if s != "" && s[|s|-1] == '"' then TrimRightQuotes(s[..|s|-1]) else s
  }

  lemma TrimQuotesOfQuoted(s: string)
    requires s != "" && s[0] != '"' && s[|s|-1] != '"'
    ensures TrimQuotes("\"" + s + "\"") == s
  {
    var q := "\"" + s + "\"";
    assert q[0] == '"' && q[1..] == s + "\"";
    assert (s + "\"")[0] == s[0];
    assert TrimLeftQuotes(s + "\"") == s + "\"";
    assert TrimLeftQuotes(q) == s + "\"";
    assert (s + "\"")[|s|] == '"' && (s + "\"")[..|s|] == s;
    assert TrimRightQuotes(s) == s;
    assert TrimRightQuotes(s + "\"") == TrimRightQuotes((s + "\"")[..|s|]);
  }

  /** Numbers are printed in base ten. */
  lemma ItoaDecimal(a: nat, b: nat)
    requires b < 10
    ensures Itoa(b) == ["0123456789"[b]]
    ensures a > 0 ==> Itoa(10 * a + b) == Itoa(a) + ["0123456789"[b]]
  {
    DigitMeans(b);
    assert (10 * a + b) / 10 == a && (10 * a + b) % 10 == b;
  }

  lemma DigitMeans(b: nat)
    requires b < 10
    ensures Digit(b) == "0123456789"[b]
  {
  }
}
