/** The JavaScript string operations the parsers lean on, as functions over `string`. */
module JsText {
  import opened Basics

  /** White space as `trim`, `\s` and `parseInt` see it. */
  predicate IsSpace(c: char) {
    || c == ' ' || ('\t' <= c <= '\r') || c == '\U{A0}' || c == '\U{1680}' || ('\U{2000}' <= c <= '\U{200A}')
    || c == '\U{2028}' || c == '\U{2029}' || c == '\U{202F}' || c == '\U{205F}' || c == '\U{3000}' || c == '\U{FEFF}'
  }

  /** The white space and line terminators of ECMA-262, sections 12.2 and 12.3, by code point. */
  lemma SpacesOfEcma(c: char)
    ensures IsSpace(c) <==>
      var n := c as int;
      || 9 <= n <= 13 || n == 32 || n == 160 || n == 5760 || 8192 <= n <= 8202 || n == 8232 || n == 8233 || n == 8239
      || n == 8287 || n == 12288 || n == 65279
  {}

  predicate Blanks(s: string) { forall i :: 0 <= i < |s| ==> IsSpace(s[i]) }

  function TrimStart(s: string): (r: string)
    ensures |r| <= |s|
    ensures r != [] ==> !IsSpace(r[0]) && r[|r| - 1] == s[|s| - 1]
    ensures forall c | c in r :: c in s
  {
    if s == [] || !IsSpace(s[0]) then s else TrimStart(s[1..])
  }

  function TrimEnd(s: string): (r: string)
    ensures r <= s
    ensures r != [] ==> !IsSpace(r[|r| - 1])
  {
    if s == [] || !IsSpace(s[|s| - 1]) then s else TrimEnd(s[..|s| - 1])
  }

  /** `String.prototype.trim`. */
  function Trim(s: string): (r: string)
    ensures r != [] ==> !IsSpace(r[0]) && !IsSpace(r[|r| - 1])
  {
    TrimEnd(TrimStart(s))
  }

  /** Nothing for `trim` to take away. */
  predicate Trimmed(s: string) {
    s == [] || (!IsSpace(s[0]) && !IsSpace(s[|s| - 1]))
  }

  lemma TrimOfTrimmed(s: string)
    requires Trimmed(s)
    ensures Trim(s) == s
  {}

  lemma {:induction false} TrimEndKeepsFront(s: string)
    requires s != [] && !IsSpace(s[0])
    ensures TrimEnd(s) != []
    decreases |s|
  {
    if IsSpace(s[|s| - 1]) { TrimEndKeepsFront(s[..|s| - 1]); }
  }

  /** A string with a visible character in it does not trim to nothing. */
  lemma {:induction false} TrimOfVisible(s: string, i: nat)
    requires i < |s| && !IsSpace(s[i])
    ensures Trim(s) != []
    decreases |s|
  {
    if IsSpace(s[0]) {
      TrimOfVisible(s[1..], i - 1);
    } else {
      TrimEndKeepsFront(s);
    }
  }

  /** A string that counts as true: there, and not empty. */
  predicate Truthy(s: Option<string>) { s.Some? && s.value != "" }

  /** `s ?? ''`. */
  function OrEmpty(s: Option<string>): string {
    if s.Some? then s.value else ""
  }

  predicate IsDigit(c: char) { '0' <= c <= '9' }

  function DigitValue(c: char): nat
    requires IsDigit(c)
  {
    c as int - '0' as int
  }

  /** Digits at the front of `s`, accumulated onto `acc`. */
  function DigitsFrom(s: string, acc: nat): nat {
    if s != [] && IsDigit(s[0]) then DigitsFrom(s[1..], acc * 10 + DigitValue(s[0])) else acc
  }

  /** The number at the front of a text that does not begin with blanks. */
  function NumberAt(t: string): Option<int> {
    var negative := t != [] && t[0] == '-';
    var d := if t != [] && (t[0] == '-' || t[0] == '+') then t[1..] else t;
    if d == [] || !IsDigit(d[0]) then None
    else
      var v: int := DigitsFrom(d, 0);
      Some(if negative then -v else v)
  }

  /** `parseInt(s, 10)`; None is NaN. */
  function ParseInt(s: string): Option<int> { NumberAt(TrimStart(s)) }

  /** `String(n)` of a natural number. */
  function Decimal(n: nat): (s: string)
    ensures s != [] && forall c | c in s :: IsDigit(c)
  {
    if n < 10 then [(n + '0' as int) as char] else Decimal(n / 10) + [(n % 10 + '0' as int) as char]
  }

  lemma {:induction false} DigitsOfConcat(a: string, b: string, acc: nat)
    requires forall c | c in a :: IsDigit(c)
    ensures DigitsFrom(a + b, acc) == DigitsFrom(b, DigitsFrom(a, acc))
    decreases |a|
  {
    if a == [] {
      assert a + b == b;
    } else {
      assert (a + b)[1..] == a[1..] + b;
      DigitsOfConcat(a[1..], b, acc * 10 + DigitValue(a[0]));
    }
  }

  lemma {:induction false} DigitsOfDecimal(n: nat)
    ensures DigitsFrom(Decimal(n), 0) == n
  {
    var last := [(n % 10 + '0' as int) as char];
    assert last[1..] == [];
    if n >= 10 {
      DigitsOfDecimal(n / 10);
      DigitsOfConcat(Decimal(n / 10), last, 0);
    }
  }

  /** `parseInt` undoes `String`. */
  lemma ParseIntOfDecimal(n: nat)
    ensures ParseInt(Decimal(n)) == Some(n)
  {
    DigitsOfDecimal(n);
    assert IsDigit(Decimal(n)[0]);
  }

  lemma {:induction false} DigitsEnd(digits: string, rest: string, acc: nat)
    requires (forall c | c in digits :: IsDigit(c)) && (rest == [] || !IsDigit(rest[0]))
    ensures DigitsFrom(digits + rest, acc) == DigitsFrom(digits, acc)
    decreases |digits|
  {
    if digits == [] {
      assert digits + rest == rest;
    } else {
      FirstOfConcat(digits, rest);
      DigitsEnd(digits[1..], rest, acc * 10 + DigitValue(digits[0]));
    }
  }

  lemma {:induction false} TrimStartDropsBlanks(blanks: string, s: string)
    requires Blanks(blanks) && (s == [] || !IsSpace(s[0]))
    ensures TrimStart(blanks + s) == s
    decreases |blanks|
  {
    if blanks == [] {
      assert blanks + s == s;
    } else {
      FirstOfConcat(blanks, s);
      TrimStartDropsBlanks(blanks[1..], s);
    }
  }

  predicate IsSign(s: string) { s == "" || s == "+" || s == "-" }

  /** Nothing that would be taken for a blank, or without a sign for one of those. */
  predicate AfterSign(sign: string, s: string) {
    s == "" || (!IsSpace(s[0]) && (sign == "" ==> s[0] != '+' && s[0] != '-'))
  }

  function Signed(sign: string, n: int): int { if sign == "-" then -n else n }

  lemma ParseIntAfterBlanks(blanks: string, s: string)
    requires Blanks(blanks) && (s == "" || !IsSpace(s[0]))
    ensures ParseInt(blanks + s) == NumberAt(s)
  {
    TrimStartDropsBlanks(blanks, s);
  }

  lemma SignedNumber(t: string, s: string)
    requires t != [] && (t[0] == '+' || t[0] == '-') && t[1..] == s
    ensures NumberAt(t) == if s == "" || !IsDigit(s[0]) then None else Some(Signed([t[0]], DigitsFrom(s, 0)))
  {}

  lemma NumberAfterSign(sign: string, s: string)
    requires IsSign(sign) && AfterSign(sign, s)
    ensures NumberAt(sign + s) == if s == "" || !IsDigit(s[0]) then None else Some(Signed(sign, DigitsFrom(s, 0)))
    ensures sign + s == "" || !IsSpace((sign + s)[0])
  {
    if sign == "" {
      assert sign + s == s;
    } else {
      assert sign == [sign[0]];
      BehindFirst(sign[0], s);
      SignedNumber([sign[0]] + s, s);
    }
  }

  /** Blanks, a sign and digits are read as the number, whatever follows; without a digit there is none. */
  lemma ParseIntReadsTheFront(blanks: string, sign: string, n: nat, rest: string)
    requires Blanks(blanks) && IsSign(sign) && (rest == "" || !IsDigit(rest[0]))
    ensures ParseInt(blanks + (sign + (Decimal(n) + rest))) == Some(Signed(sign, n))
    ensures AfterSign(sign, rest) ==> ParseInt(blanks + (sign + rest)) == None
  {
    var digits := Decimal(n);
    assert digits[0] in digits;
    NumberAfterSign(sign, digits + rest);
    ParseIntAfterBlanks(blanks, sign + (digits + rest));
    DigitsEnd(digits, rest, 0);
    DigitsOfDecimal(n);
    if AfterSign(sign, rest) {
      NumberAfterSign(sign, rest);
      ParseIntAfterBlanks(blanks, sign + rest);
    }
  }

  /** `toLowerCase` on ASCII letters. No other letter lowers to one that occurs in a keyword here. */
  function LowerChar(c: char): char {
    if 'A' <= c <= 'Z' then (c as int + 32) as char else c
  }

  lemma LettersLower(upper: string, lower: string, i: nat)
    requires upper == "ABCDEFGHIJKLMNOPQRSTUVWXYZ" && lower == "abcdefghijklmnopqrstuvwxyz" && i < |upper|
    ensures |lower| == |upper| && LowerChar(upper[i]) == LowerChar(lower[i]) == lower[i]
  {}

  function Lower(s: string): (r: string)
    ensures |r| == |s|
    ensures forall i :: 0 <= i < |s| ==> r[i] == LowerChar(s[i])
  {
    seq(|s|, i requires 0 <= i < |s| => LowerChar(s[i]))
  }

  // ---- lines ----

  /** First index of `c` at or after `i`, or |s|. */
  function Find(s: string, c: char, i: nat): (r: nat)
    requires i <= |s|
    ensures i <= r <= |s|
    ensures r < |s| ==> s[r] == c
    ensures forall k :: i <= k < r ==> s[k] != c
    decreases |s| - i
  {
    if i == |s| || s[i] == c then i else Find(s, c, i + 1)
  }

  function ChopCr(s: string): string {
    if s != [] && s[|s| - 1] == '\r' then s[..|s| - 1] else s
  }

  /** `s.split(/\r?\n/)`. */
  function SplitLines(s: string): (r: seq<string>)
    ensures r != []
    decreases |s|
  {
    var k := Find(s, '\n', 0);
    if k == |s| then [s] else [ChopCr(s[..k])] + SplitLines(s[k + 1..])
  }

  /** `lines.join(sep)`. */
  function Join(parts: seq<string>, sep: string): string {
    if parts == [] then [] else if |parts| == 1 then parts[0] else parts[0] + sep + Join(parts[1..], sep)
  }

  /** A line that survives being joined with newlines and split again. */
  predicate CleanLine(s: string) {
    '\n' !in s && (s != "" ==> s[|s| - 1] != '\r')
  }

  lemma FindFirst(head: string, c: char, tail: string)
    requires c !in head
    ensures Find(head + [c] + tail, c, 0) == |head|
    ensures Find(head, c, 0) == |head|
  {
    var s := head + [c] + tail;
    assert s[|head|] == c;
    forall k | 0 <= k < |head| ensures s[k] != c { assert s[k] == head[k] && head[k] in head; }
  }

  lemma SplitAtFirstBreak(front: string, rest: string)
    requires '\n' !in front
    ensures SplitLines(front + ['\n'] + rest) == [ChopCr(front)] + SplitLines(rest)
  {
    var s := front + ['\n'] + rest;
    FindFirst(front, '\n', rest);
    assert s[..|front|] == front && s[|front| + 1..] == rest;
  }

  lemma SplitAtFirstCrLf(first: string, rest: string)
    requires '\n' !in first
    ensures SplitLines(first + "\r\n" + rest) == [first] + SplitLines(rest)
  {
    var front := first + ['\r'];
    assert first + "\r\n" == front + ['\n'];
    SplitAtFirstBreak(front, rest);
    ChopsCr(first);
  }

  lemma ChopsCr(s: string)
    ensures ChopCr(s + ['\r']) == s
  {}

  lemma JoinUnfolds(parts: seq<string>, sep: string)
    requires |parts| > 1
    ensures Join(parts, sep) == parts[0] + sep + Join(parts[1..], sep)
  {}

  lemma LastLine(line: string)
    requires '\n' !in line
    ensures SplitLines(line) == [line]
  {
    FindFirst(line, '\n', "");
  }

  /** Lines that end in carriage return and line feed are cut at those. */
  lemma {:induction false} SplitOfCrLfLines(lines: seq<string>)
    requires lines != [] && forall i :: 0 <= i < |lines| ==> '\n' !in lines[i]
    ensures SplitLines(Join(lines, "\r\n")) == lines
    decreases |lines|
  {
    if |lines| == 1 {
      LastLine(lines[0]);
    } else {
      JoinUnfolds(lines, "\r\n");
      SplitAtFirstCrLf(lines[0], Join(lines[1..], "\r\n"));
      SplitOfCrLfLines(lines[1..]);
      assert lines == [lines[0]] + lines[1..];
    }
  }

  lemma {:induction false} SplitOfJoinedLines(lines: seq<string>)
    requires lines != [] && forall i :: 0 <= i < |lines| ==> CleanLine(lines[i])
    ensures SplitLines(Join(lines, "\n")) == lines
    decreases |lines|
  {
    var first := lines[0];
    FindFirst(first, '\n', Join(lines[1..], "\n"));
    assert first != [] ==> first[|first| - 1] in first;
    if |lines| > 1 {
      var rest := Join(lines[1..], "\n");
      var s := first + ['\n'] + rest;
      assert Join(lines, "\n") == s;
      assert s[..|first|] == first && s[|first| + 1..] == rest;
      SplitOfJoinedLines(lines[1..]);
    }
  }
}
