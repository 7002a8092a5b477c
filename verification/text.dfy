/** Character classes, string helpers and a leftmost-match search shared by the
    tokenizer, the extractors and the log scanner.

    Character classes follow the regular-expression classes the log analyser uses:
    whitespace is the full set Python treats as whitespace in `str` patterns and in
    `str.strip()`; digits, word characters and case folding are the ASCII ones. */
module Text {

  datatype Option<+T> = None | Some(value: T)

  /** Python's `str.isspace()`, which is also the class `\s` of a `str` pattern. */
  predicate IsSpace(c: char)
  {
    var n := c as int;
    || n == 0x20
    || 0x09 <= n <= 0x0D
    || 0x1C <= n <= 0x1F
    || n == 0x85 || n == 0xA0 || n == 0x1680
    || 0x2000 <= n <= 0x200A
    || n == 0x2028 || n == 0x2029 || n == 0x202F || n == 0x205F || n == 0x3000
  }

  predicate IsDigit(c: char) { '0' <= c <= '9' }

  predicate IsUpper(c: char) { 'A' <= c <= 'Z' }

  /** The class `\w`. */
  predicate IsWordChar(c: char)
  {
    'a' <= c <= 'z' || 'A' <= c <= 'Z' || IsDigit(c) || c == '_'
  }

  /** ASCII lower-casing, the folding an IGNORECASE pattern applies to ASCII letters. */
  function Lower(c: char): (r: char)
    ensures IsUpper(c) ==> r as int == c as int + 32
    ensures !IsUpper(c) ==> r == c
  {
    if IsUpper(c) then (c as int + 32) as char else c
  }

  /** The first index at or after `i` whose character does not satisfy `f`:
      the end of the greedy run `f*` starting at `i`. */
  function SkipWhile(s: string, i: nat, f: char -> bool): (j: nat)
    requires i <= |s|
    ensures i <= j <= |s|
    ensures forall k :: i <= k < j ==> f(s[k])
    ensures j == |s| || !f(s[j])
    decreases |s| - i
  {
    if i < |s| && f(s[i]) then SkipWhile(s, i + 1, f) else i
  }

  /** A run that is known to stop at `j` is where `SkipWhile` stops. */
  lemma SkipWhileExact(s: string, i: nat, j: nat, f: char -> bool)
    requires i <= j <= |s|
    requires forall k :: i <= k < j ==> f(s[k])
    requires j == |s| || !f(s[j])
    ensures SkipWhile(s, i, f) == j
  {
  }

  function SkipSpaces(s: string, i: nat): (j: nat)
    requires i <= |s|
    ensures i <= j <= |s|
    ensures forall k :: i <= k < j ==> IsSpace(s[k])
    ensures j == |s| || !IsSpace(s[j])
  {
    SkipWhile(s, i, IsSpace)
  }

  function SkipDigits(s: string, i: nat): (j: nat)
    requires i <= |s|
    ensures i <= j <= |s|
    ensures forall k :: i <= k < j ==> IsDigit(s[k])
    ensures j == |s| || !IsDigit(s[j])
  {
    SkipWhile(s, i, IsDigit)
  }

  predicate AllSpaces(s: string)
  {
    forall k :: 0 <= k < |s| ==> IsSpace(s[k])
  }

  /** Python's `str.isdigit()` on ASCII text: non-empty and all digits. */
  predicate IsDigitString(s: string)
  {
    |s| > 0 && forall k :: 0 <= k < |s| ==> IsDigit(s[k])
  }

  /** Python's `int()` of a string of ASCII digits (leading zeros allowed). */
  function DecimalValue(ds: string): nat
  {
    if ds == [] then 0
    else DecimalValue(ds[..|ds| - 1]) * 10 + DigitValue(ds[|ds| - 1])
  }

  function DigitValue(c: char): nat
  {
    if IsDigit(c) then c as int - '0' as int else 0
  }

  function DigitChar(d: nat): (c: char)
    requires d < 10
    ensures IsDigit(c) && DigitValue(c) == d
  {
    ('0' as int + d) as char
  }

  /** Python's `str()` of a non-negative int. */
  function NatToDecimal(n: nat): (r: string)
    ensures IsDigitString(r)
    ensures DecimalValue(r) == n
    ensures n > 0 ==> r[0] != '0'
  {
    if n < 10 then [DigitChar(n)]
    else
      var prefix := NatToDecimal(n / 10);
      var r := prefix + [DigitChar(n % 10)];
      assert r[..|r| - 1] == prefix;
      r
  }

  /** Python's `str()` of an int: a minus sign, then the decimal digits. */
  function IntToDecimal(n: int): (r: string)
    ensures |r| > 0
    ensures n >= 0 ==> IsDigitString(r) && DecimalValue(r) == n
    ensures n < 0 ==> r[0] == '-' && IsDigitString(r[1..]) && DecimalValue(r[1..]) == -n
  {
    if n >= 0 then NatToDecimal(n) else "-" + NatToDecimal(-n)
  }

  /** Python's `sub in s` for strings. */
  predicate Contains(s: string, sub: string)
    decreases |s|
  {
    sub <= s || (s != [] && Contains(s[1..], sub))
  }

  lemma {:induction false} ContainsAt(s: string, sub: string)
    ensures Contains(s, sub) <==> exists i :: 0 <= i <= |s| && sub <= s[i..]
    decreases |s|
  {
    assert s[0..] == s;
    if s != [] {
      ContainsAt(s[1..], sub);
      if Contains(s[1..], sub) {
        var i :| 0 <= i <= |s[1..]| && sub <= s[1..][i..];
        assert s[1..][i..] == s[i + 1..];
      }
      if i :| 0 <= i <= |s| && sub <= s[i..] {
        if i > 0 {
          assert s[1..][i - 1..] == s[i..];
        }
      }
    }
  }

  /** Text in which the first character of `sub` never occurs does not contain `sub`. */
  lemma {:induction false} MissingFirstChar(s: string, sub: string)
    requires |sub| > 0 && forall k :: 0 <= k < |s| ==> s[k] != sub[0]
    ensures !Contains(s, sub)
    decreases |s|
  {
    if s != [] {
      assert s[0] != sub[0];
      MissingFirstChar(s[1..], sub);
    }
  }

  /** Python's `str.strip()` with no arguments: leading and trailing whitespace removed. */
  function Strip(s: string): string
  {
    StripEnd(StripStart(s))
  }

  function StripStart(s: string): string
  {
    if s != [] && IsSpace(s[0]) then StripStart(s[1..]) else s
  }

  function StripEnd(s: string): string
  {
    if s != [] && IsSpace(s[|s| - 1]) then StripEnd(s[..|s| - 1]) else s
  }

  /** What stripping leaves: a slice of the text with only whitespace cut away on either
      side, which neither starts nor ends with whitespace. */
  lemma StripSpec(s: string)
    ensures var r := Strip(s);
            && (exists i, j :: 0 <= i <= j <= |s| && r == s[i..j] && AllSpaces(s[..i]) && AllSpaces(s[j..]))
            && (r != [] ==> !IsSpace(r[0]) && !IsSpace(r[|r| - 1]))
  {
    var i := StripStartSpec(s);
    var u := s[i..];
    var j := StripEndSpec(u);
    assert Strip(s) == s[i..i + j];
    assert s[i + j..] == u[j..];
    if Strip(s) != [] {
      assert Strip(s)[0] == StripStart(s)[0];
    }
  }

  lemma {:induction false} StripStartSpec(s: string) returns (i: nat)
    ensures i <= |s| && StripStart(s) == s[i..] && AllSpaces(s[..i])
    ensures StripStart(s) != [] ==> !IsSpace(StripStart(s)[0])
    decreases |s|
  {
    if s != [] && IsSpace(s[0]) {
      var i' := StripStartSpec(s[1..]);
      i := i' + 1;
      assert s[1..][i'..] == s[i..];
      assert forall k :: 1 <= k < i ==> s[..i][k] == s[1..][..i'][k - 1];
    } else {
      i := 0;
    }
  }

  lemma {:induction false} StripEndSpec(s: string) returns (j: nat)
    ensures j <= |s| && StripEnd(s) == s[..j] && AllSpaces(s[j..])
    ensures StripEnd(s) != [] ==> !IsSpace(StripEnd(s)[|StripEnd(s)| - 1])
    decreases |s|
  {
    if s != [] && IsSpace(s[|s| - 1]) {
      var u := s[..|s| - 1];
      j := StripEndSpec(u);
      assert u[..j] == s[..j];
      forall k | 0 <= k < |s[j..]| ensures IsSpace(s[j..][k]) {
        if j + k < |s| - 1 {
          assert s[j..][k] == u[j..][k];
        }
      }
    } else {
      j := |s|;
    }
  }

  /** The end of `s` once trailing whitespace after position `i` is dropped. */
  function TrimEnd(s: string, i: nat): (j: nat)
    requires i <= |s|
    ensures i <= j <= |s|
    ensures AllSpaces(s[j..])
    ensures j > i ==> !IsSpace(s[j - 1])
    decreases |s|
  {
    if |s| == i || !IsSpace(s[|s| - 1]) then |s|
    else
      var j := TrimEnd(s[..|s| - 1], i);
      assert s[j..] == s[..|s| - 1][j..] + [s[|s| - 1]];
      j
  }

  /** Concatenation regroups freely. */
  lemma AppendAssoc<T>(a: seq<T>, b: seq<T>, c: seq<T>)
    ensures (a + b) + c == a + (b + c)
  {
  }

  /** The concatenation of a sequence of strings: Python's `"".join(lines)`. */
  function Concat(lines: seq<string>): string
  {
    if lines == [] then "" else lines[0] + Concat(lines[1..])
  }

  /** The result of the matcher `m` at the leftmost position at or after `p` where it
      succeeds: how `re.search` scans for the first match of a pattern. */
  function FirstMatch<T>(s: string, p: nat, m: (string, nat) -> Option<T>): Option<T>
    decreases |s| + 1 - p
  {
    if p > |s| then None
    else match m(s, p)
      case Some(v) => Some(v)
      case None => FirstMatch(s, p + 1, m)
  }

  /** `FirstMatch` finds a match exactly when there is one, and then the leftmost. */
  lemma {:induction false} FirstMatchSpec<T>(s: string, p: nat, m: (string, nat) -> Option<T>)
    ensures var r := FirstMatch(s, p, m);
            && (r.Some? ==> exists q :: p <= q <= |s| && m(s, q) == r
                                        && forall q' :: p <= q' < q ==> m(s, q').None?)
            && (r.None? <==> forall q :: p <= q <= |s| ==> m(s, q).None?)
    decreases |s| + 1 - p
  {
    if p <= |s| && m(s, p).None? {
      FirstMatchSpec(s, p + 1, m);
    }
  }

  /** A match at the starting position is the one found. */
  lemma FirstMatchAtStart<T>(s: string, m: (string, nat) -> Option<T>, v: T)
    requires m(s, 0) == Some(v)
    ensures FirstMatch(s, 0, m) == Some(v)
  {
  }

  /** Positions where the matcher fails can be skipped. */
  lemma {:induction false} FirstMatchSkip<T>(s: string, p: nat, o: nat, m: (string, nat) -> Option<T>)
    requires p <= o
    requires forall q :: p <= q < o ==> m(s, q).None?
    ensures FirstMatch(s, p, m) == FirstMatch(s, o, m)
    decreases o - p
  {
    if p < o {
      FirstMatchSkip(s, p + 1, o, m);
    }
  }
}
