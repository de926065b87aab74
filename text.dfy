/** The JavaScript string operations the queue pages rely on: `trim`, `toLowerCase`,
    `includes`, `padStart` and `String(n)` for a non-negative integer. */
module Text {

  /** The characters `String.prototype.trim` removes: ECMAScript's WhiteSpace and
      LineTerminator productions (tab, vertical tab, form feed, space, no-break space,
      byte order mark, the Unicode space separators, LF, CR, LS and PS). */
  predicate IsWhitespace(c: char) {
    || c == ' ' || c == '\t' || c == '\n' || c == '\r' || c == '\U{B}' || c == '\U{C}'
    || c == '\U{A0}' || c == '\U{1680}' || ('\U{2000}' <= c <= '\U{200A}')
    || c == '\U{2028}' || c == '\U{2029}' || c == '\U{202F}' || c == '\U{205F}'
    || c == '\U{3000}' || c == '\U{FEFF}'
  }

  /** The first index at or after `i` that does not hold whitespace (`|s|` when there
      is none): where the text left after `trimStart` begins. */
  function SkipBlanks(s: string, i: nat): (j: nat)
    requires i <= |s|
    ensures i <= j <= |s|
    ensures forall k :: i <= k < j ==> IsWhitespace(s[k])
    ensures j == |s| || !IsWhitespace(s[j])
    decreases |s| - i
  {
    if i < |s| && IsWhitespace(s[i]) then SkipBlanks(s, i + 1) else i
  }

  /** The least index `i`, no lower than `lo`, such that `s[i..j]` is all whitespace:
      where the text left after `trimEnd` ends. */
  function BackBlanks(s: string, lo: nat, j: nat): (i: nat)
    requires lo <= j <= |s|
    ensures lo <= i <= j
    ensures forall k :: i <= k < j ==> IsWhitespace(s[k])
    ensures i == lo || !IsWhitespace(s[i - 1])
    decreases j
  {
    if lo < j && IsWhitespace(s[j - 1]) then BackBlanks(s, lo, j - 1) else j
  }

  /** `r` is the infix of `s` at index `i`, and everything around it is whitespace. */
  predicate TrimmedAt(s: string, r: string, i: int) {
    && 0 <= i <= |s| - |r| && r == s[i..i + |r|]
    && (forall j :: 0 <= j < i ==> IsWhitespace(s[j]))
    && (forall j :: i + |r| <= j < |s| ==> IsWhitespace(s[j]))
  }

  /** `String.prototype.trim`: leading, then trailing whitespace removed. */
  function Trim(s: string): string {
    var b := SkipBlanks(s, 0);
    s[b..BackBlanks(s, b, |s|)]
  }

  /** `Trim(s)` is the longest infix of `s` that neither starts nor ends with
      whitespace, all of whose surroundings are whitespace; it is empty exactly when
      `s` is all whitespace. */
  lemma TrimSpec(s: string)
    ensures exists i :: TrimmedAt(s, Trim(s), i)
    ensures Trim(s) == [] || (!IsWhitespace(Trim(s)[0]) && !IsWhitespace(Trim(s)[|Trim(s)| - 1]))
    ensures Trim(s) == [] <==> forall j :: 0 <= j < |s| ==> IsWhitespace(s[j])
  {
    var b := SkipBlanks(s, 0);
    var e := BackBlanks(s, b, |s|);
    assert TrimmedAt(s, Trim(s), b);
    if Trim(s) != [] {
      assert Trim(s)[0] == s[b];
      assert Trim(s)[|Trim(s)| - 1] == s[e - 1];
    }
  }

  /** `Trim` leaves a string that has no surrounding whitespace as it is. */
  lemma TrimUntrimmed(s: string)
    requires s == [] || (!IsWhitespace(s[0]) && !IsWhitespace(s[|s| - 1]))
    ensures Trim(s) == s
  {
    if s != [] {
      assert SkipBlanks(s, 0) == 0;
    }
  }

  /** `toLowerCase` on one character (ASCII letters only). */
  function LowerChar(c: char): char {
    if 'A' <= c <= 'Z' then (c as int - 'A' as int + 'a' as int) as char else c
  }

  /** `String.prototype.toLowerCase`, restricted to the ASCII letters. */
  function Lower(s: string): (r: string)
    ensures |r| == |s|
    ensures forall i :: 0 <= i < |s| ==> r[i] == LowerChar(s[i])
  {
    seq(|s|, i requires 0 <= i < |s| => LowerChar(s[i]))
  }

  /** One trailing blank after an untrimmed string is dropped. */
  lemma TrimTrailingBlank(s: string, c: char)
    requires s != [] && !IsWhitespace(s[0]) && !IsWhitespace(s[|s| - 1])
    requires IsWhitespace(c)
    ensures Trim(s + [c]) == s
  {
    var t := s + [c];
    assert t[0] == s[0] && t[|s| - 1] == s[|s| - 1];
    assert SkipBlanks(t, 0) == 0;
    assert BackBlanks(t, 0, |t|) == |s|;
    assert t[..|s|] == s;
  }

  /** Trimming the search text `"T-002 "` leaves the label `T-002`. */
  lemma TrimExample(search: string)
    requires search == "T-002 "
    ensures Trim(search) == "T-002"
  {
    var stored := "T-002";
    assert search == stored + [' '];
    TrimTrailingBlank(stored, ' ');
  }

  /** Lower-casing the label `T-002` gives `t-002`, which lower-casing keeps. */
  lemma LowerExample(s: string)
    requires s == "T-002" || s == "t-002"
    ensures Lower(s) == "t-002"
  {
    assert LowerChar('T') == 't';
  }

  /** `q` occurs in `s` at index `i`. */
  predicate OccursAt(s: string, q: string, i: int) {
    0 <= i && i + |q| <= |s| && s[i..i + |q|] == q
  }

  /** `String.prototype.includes`: `q` occurs somewhere in `s` (the empty string
      occurs everywhere). */
  predicate Contains(s: string, q: string) {
    exists i | 0 <= i <= |s| - |q| :: OccursAt(s, q, i)
  }

  /** Every string contains itself. */
  lemma ContainsSelf(s: string)
    ensures Contains(s, s)
  {
    assert OccursAt(s, s, 0);
  }

  /** `String.prototype.padStart(width, fill)` with a one-character fill: never
      truncates, keeps `s` as its suffix and fills the front with `fill`. */
  function PadStart(s: string, width: nat, fill: char): (r: string)
    ensures |r| == if |s| >= width then |s| else width
    ensures r[|r| - |s|..] == s
    ensures forall i :: 0 <= i < |r| - |s| ==> r[i] == fill
  {
    if |s| >= width then s else seq(width - |s|, _ => fill) + s
  }

  predicate IsDigit(c: char) {
    '0' <= c <= '9'
  }

  predicate AllDigits(s: string) {
    forall i :: 0 <= i < |s| ==> IsDigit(s[i])
  }

  function DigitChar(d: nat): (c: char)
    requires d < 10
    ensures IsDigit(c)
  {
    (d + '0' as int) as char
  }

  function DigitValue(c: char): (d: nat)
    requires IsDigit(c)
    ensures d < 10
  {
    c as int - '0' as int
  }

  /** `String(n)` for a non-negative integer: its decimal digits, with no leading zero
      unless `n` is zero. */
  function NatToString(n: nat): (r: string)
    ensures |r| >= 1 && AllDigits(r)
    ensures r[0] == '0' ==> n == 0
  {
    if n < 10 then [DigitChar(n)] else NatToString(n / 10) + [DigitChar(n % 10)]
  }

  /** The number a string of decimal digits denotes. */
  function DecimalValue(s: string): nat
    requires AllDigits(s)
  {
    if s == [] then 0 else DecimalValue(s[..|s| - 1]) * 10 + DigitValue(s[|s| - 1])
  }

  /** Reading back the digits of `NatToString(n)` gives `n`. */
  lemma {:induction false} DecimalValueOfNatToString(n: nat)
    ensures DecimalValue(NatToString(n)) == n
  {
    if n >= 10 {
      var r := NatToString(n);
      assert r[..|r| - 1] == NatToString(n / 10);
      DecimalValueOfNatToString(n / 10);
    }
  }

  /** Leading zeros do not change the value of a decimal string. */
  lemma {:induction false} DecimalValueLeadingZeros(z: string, s: string)
    requires forall i :: 0 <= i < |z| ==> z[i] == '0'
    requires AllDigits(s)
    ensures AllDigits(z + s) && DecimalValue(z + s) == DecimalValue(s)
    decreases |z| + |s|
  {
    var t := z + s;
    if s == [] {
      assert t == z;
      if z != [] {
        DecimalValueLeadingZeros(z[..|z| - 1], []);
        assert z[..|z| - 1] + [] == z[..|z| - 1];
      }
    } else {
      assert t[..|t| - 1] == z + s[..|s| - 1];
      DecimalValueLeadingZeros(z, s[..|s| - 1]);
    }
  }
}
