/** The S2F49 remote-command extraction (`_parse_s2f49_command` in log_parser.py).

    Three patterns are searched for independently in the raw body text. Each one, if it
    is found, contributes one entry:
    - the command name: the first `<A[n] '…'` string value made of five or more
      characters from `A`–`Z` and `_`;
    - the lot id: the string after a `'LOTID'` name;
    - the panel count: the count declared by the list after a `'LOTPANELS'` name.
    The last two patterns ignore case.

    Each pattern is written out as a matcher at one position, and `FirstMatch` scans for
    the leftmost position, as `re.search` does. None of these patterns can backtrack
    usefully: each repeated class is followed by a character outside it, so the greedy
    run is the only one that can succeed. */
module Command {
  import opened Text
  import opened RoundTrip
  import opened Events

  /** The class `[A-Z_]` of a command name. */
  predicate IsCommandChar(c: char)
  {
    IsUpper(c) || c == '_'
  }

  predicate NotQuote(c: char)
  {
    c != '\''
  }

  /** The text at `p` spells `word` (given in lower case) when ASCII case is ignored. */
  predicate FoldedAt(s: string, p: nat, word: string)
  {
    p + |word| <= |s| && forall k :: 0 <= k < |word| ==> Lower(s[p + k]) == word[k]
  }

  /** `\d+\]\s*'` at position `c`: where its quote is. Each of the three patterns reads
      a declared count this way after the `[` of a marker, and the first two go on to a
      quoted string. */
  function QuoteAfterCount(s: string, c: nat): (r: Option<nat>)
    requires c <= |s|
    ensures r.Some? ==> c < r.value < |s| && s[r.value] == '\''
  {
    var d := SkipDigits(s, c);
    if d == c || d >= |s| || s[d] != ']' then None
    else
      var q := SkipSpaces(s, d + 1);
      if q >= |s| || s[q] != '\'' then None else Some(q)
  }

  /** `<\s*A\s*\[\d+\]\s*'([A-Z_]{5,})'` at position `p`: the command name. */
  function CommandAt(s: string, p: nat): (r: Option<string>)
    ensures r.Some? ==> |r.value| >= 5 && forall k :: 0 <= k < |r.value| ==> IsCommandChar(r.value[k])
  {
    if p >= |s| || s[p] != '<' then None
    else
      var a := SkipSpaces(s, p + 1);
      if a >= |s| || s[a] != 'A' then None
      else
        var b := SkipSpaces(s, a + 1);
        if b >= |s| || s[b] != '[' then None
        else match QuoteAfterCount(s, b + 1)
          case None => None
          case Some(q) =>
            var e := SkipWhile(s, q + 1, IsCommandChar);
            if e - (q + 1) < 5 || e >= |s| || s[e] != '\'' then None
            else Some(s[q + 1..e])
  }

  /** The quoted name `'word'` at position `p`, ignoring case (`word` is in lower case). */
  predicate QuotedNameAt(s: string, p: nat, word: string)
  {
    p + |word| + 2 <= |s| && s[p] == '\'' && FoldedAt(s, p + 1, word) && s[p + |word| + 1] == '\''
  }

  /** `'LOTID'\s*>\s*<A\[\d+\]\s*'([^']*)'` at position `p`, ignoring case: the lot id. */
  function LotIdAt(s: string, p: nat): (r: Option<string>)
    ensures r.Some? ==> forall k :: 0 <= k < |r.value| ==> r.value[k] != '\''
  {
    if !QuotedNameAt(s, p, "lotid") then None else LotValueAt(s, p + 7)
  }

  /** The rest of the lot id pattern, `\s*>\s*<A\[\d+\]\s*'([^']*)'`, from position `i`. */
  function LotValueAt(s: string, i: nat): (r: Option<string>)
    requires i <= |s|
    ensures r.Some? ==> forall k :: 0 <= k < |r.value| ==> r.value[k] != '\''
  {
    var a := SkipSpaces(s, i);
    if a >= |s| || s[a] != '>' then None
    else
      var b := SkipSpaces(s, a + 1);
      if !(b + 3 <= |s| && s[b] == '<' && Lower(s[b + 1]) == 'a' && s[b + 2] == '[') then None
      else CountedValueAt(s, b + 3)
  }

  /** `\d+\]\s*'([^']*)'` from position `c`: the quoted value after a declared count. */
  function CountedValueAt(s: string, c: nat): (r: Option<string>)
    requires c <= |s|
    ensures r.Some? ==> forall k :: 0 <= k < |r.value| ==> r.value[k] != '\''
  {
    match QuoteAfterCount(s, c)
      case None => None
      case Some(q) =>
        var e := SkipWhile(s, q + 1, NotQuote);
        if e >= |s| then None else Some(s[q + 1..e])
  }

  /** `'LOTPANELS'\s*>\s*<L\s*\[(\d+)\]` at position `p`, ignoring case: the declared
      count of the panel list, read as a decimal number. */
  function PanelsAt(s: string, p: nat): Option<nat>
  {
    if !QuotedNameAt(s, p, "lotpanels") then None else PanelsCountAt(s, p + 11)
  }

  /** The rest of the panel pattern, `\s*>\s*<L\s*\[(\d+)\]`, from position `i`. */
  function PanelsCountAt(s: string, i: nat): Option<nat>
    requires i <= |s|
  {
    var a := SkipSpaces(s, i);
    if a >= |s| || s[a] != '>' then None
    else
      var b := SkipSpaces(s, a + 1);
      if !(b + 2 <= |s| && s[b] == '<' && Lower(s[b + 1]) == 'l') then None
      else
        var c := SkipSpaces(s, b + 2);
        if c >= |s| || s[c] != '[' then None
        else
          var d := SkipDigits(s, c + 1);
          if d == c + 1 || d >= |s| || s[d] != ']' then None
          else Some(DecimalValue(s[c + 1..d]))
  }

  /** The leftmost command name, lot id and panel count in the text. */
  function FindCommand(text: string): Option<string>
  {
    FirstMatch(text, 0, CommandAt)
  }

  function FindLotId(text: string): Option<string>
  {
    FirstMatch(text, 0, LotIdAt)
  }

  function FindPanels(text: string): Option<nat>
  {
    FirstMatch(text, 0, PanelsAt)
  }

  /** `_parse_s2f49_command`: each of the three entries is present exactly when its own
      search succeeded, and holds what that search captured; nothing else is stored. */
  function ParseCommand(text: string): (r: Details)
    ensures forall k :: k in r ==> k == "RCMD" || k == "LotID" || k == "PanelCount"
    ensures "RCMD" in r <==> FindCommand(text).Some?
    ensures "RCMD" in r ==> r["RCMD"] == Str(FindCommand(text).value)
    ensures "LotID" in r <==> FindLotId(text).Some?
    ensures "LotID" in r ==> r["LotID"] == Str(FindLotId(text).value)
    ensures "PanelCount" in r <==> FindPanels(text).Some?
    ensures "PanelCount" in r ==> r["PanelCount"] == Num(FindPanels(text).value)
  {
    var rcmd := FindCommand(text);
    var lot := FindLotId(text);
    var panels := FindPanels(text);
    var d1: Details := if rcmd.Some? then map["RCMD" := Str(rcmd.value)] else map[];
    var d2 := if lot.Some? then d1["LotID" := Str(lot.value)] else d1;
    if panels.Some? then d2["PanelCount" := Num(panels.value)] else d2
  }

  // ----- properties -----

  /** The command name is present exactly when its pattern occurs somewhere in the text;
      it is then the capture of the leftmost occurrence: five or more of `[A-Z_]`. */
  lemma CommandEntry(text: string)
    ensures var r := ParseCommand(text);
            && ("RCMD" in r <==> exists p :: 0 <= p <= |text| && CommandAt(text, p).Some?)
            && ("RCMD" in r ==> && (exists p :: 0 <= p <= |text| && CommandAt(text, p) == Some(r["RCMD"].s)
                                             && forall p' :: 0 <= p' < p ==> CommandAt(text, p').None?)
                                && |r["RCMD"].s| >= 5
                                && forall k :: 0 <= k < |r["RCMD"].s| ==> IsCommandChar(r["RCMD"].s[k]))
  {
    FirstMatchSpec(text, 0, CommandAt);
  }

  /** The lot id is present exactly when its pattern occurs, whatever the other two
      patterns find; it is the capture of the leftmost occurrence and holds no quote. */
  lemma LotIdEntry(text: string)
    ensures var r := ParseCommand(text);
            && ("LotID" in r <==> exists p :: 0 <= p <= |text| && LotIdAt(text, p).Some?)
            && ("LotID" in r ==> && (exists p :: 0 <= p <= |text| && LotIdAt(text, p) == Some(r["LotID"].s)
                                              && forall p' :: 0 <= p' < p ==> LotIdAt(text, p').None?)
                                 && forall k :: 0 <= k < |r["LotID"].s| ==> r["LotID"].s[k] != '\'')
  {
    FirstMatchSpec(text, 0, LotIdAt);
  }

  /** The panel count is present exactly when its pattern occurs; it is the number the
      leftmost occurrence declares. */
  lemma PanelsEntry(text: string)
    ensures var r := ParseCommand(text);
            && ("PanelCount" in r <==> exists p :: 0 <= p <= |text| && PanelsAt(text, p).Some?)
            && ("PanelCount" in r ==> exists p :: 0 <= p <= |text| && r["PanelCount"].n >= 0
                                        && PanelsAt(text, p) == Some(r["PanelCount"].n as nat)
                                        && forall p' :: 0 <= p' < p ==> PanelsAt(text, p').None?)
  {
    FirstMatchSpec(text, 0, PanelsAt);
    PanelCountValue(text);
  }

  lemma PanelCountValue(text: string)
    ensures var r := ParseCommand(text);
            "PanelCount" in r ==> r["PanelCount"].n >= 0 && r["PanelCount"].n as nat == FindPanels(text).value
  {
  }

  /** A string value `<A[d] 'w'>` whose text is drawn from `[A-Z_]` is taken as the
      command name exactly when the text has five or more characters. */
  lemma CommandNameLength(d: string, w: string)
    requires IsDigitString(d)
    requires forall k :: 0 <= k < |w| ==> IsCommandChar(w[k])
    ensures CommandAt(ValueTag(d, w), 0) == (if |w| >= 5 then Some(w) else None)
    ensures var r := ParseCommand(ValueTag(d, w));
            ("RCMD" in r <==> |w| >= 5) && (|w| >= 5 ==> "RCMD" in r && r["RCMD"] == Str(w))
  {
    var s := ValueTag(d, w);
    CommandTagLayout(d, w);
    CommandAtTag(d, w);
    NoCommandPastStart(d, w);
    FirstMatchSkip(s, 1, |s| + 1, CommandAt);
  }

  lemma CommandTagLayout(d: string, w: string)
    requires IsDigitString(d)
    requires forall k :: 0 <= k < |w| ==> IsCommandChar(w[k])
    ensures var s := ValueTag(d, w);
            var n := |d|;
            && |s| == 8 + n + |w|
            && s[0] == '<' && s[1] == 'A' && s[2] == '['
            && (forall k :: 3 <= k < 3 + n ==> IsDigit(s[k]))
            && s[3 + n] == ']' && s[4 + n] == ' ' && s[5 + n] == '\''
            && (forall k :: 6 + n <= k < 6 + n + |w| ==> IsCommandChar(s[k]))
            && s[6 + n..6 + n + |w|] == w
            && s[6 + n + |w|] == '\'' && s[7 + n + |w|] == '>'
  {
    var s := ValueTag(d, w);
    var n := |d|;
    assert forall k :: 3 <= k < 3 + n ==> s[k] == d[k - 3];
    assert forall k :: 6 + n <= k < 6 + n + |w| ==> s[k] == w[k - 6 - n];
  }

  lemma CommandAtTag(d: string, w: string)
    requires IsDigitString(d)
    requires forall k :: 0 <= k < |w| ==> IsCommandChar(w[k])
    ensures CommandAt(ValueTag(d, w), 0) == (if |w| >= 5 then Some(w) else None)
  {
    CommandTagLayout(d, w);
    CommandAtLaidOut(ValueTag(d, w), |d|, |w|);
  }

  /** `CommandAt` on text laid out as `<A[digits] 'name'`, by positions alone. */
  lemma CommandAtLaidOut(s: string, n: nat, m: nat)
    requires n > 0 && |s| == 8 + n + m
    requires s[0] == '<' && s[1] == 'A' && s[2] == '['
    requires forall k :: 3 <= k < 3 + n ==> IsDigit(s[k])
    requires s[3 + n] == ']' && s[4 + n] == ' ' && s[5 + n] == '\''
    requires forall k :: 6 + n <= k < 6 + n + m ==> IsCommandChar(s[k])
    requires s[6 + n + m] == '\''
    ensures CommandAt(s, 0) == (if m >= 5 then Some(s[6 + n..6 + n + m]) else None)
  {
    SkipWhileExact(s, 1, 1, IsSpace);
    SkipWhileExact(s, 2, 2, IsSpace);
    QuoteAfterCountAt(s, 3, n);
    SkipWhileExact(s, 6 + n, 6 + n + m, IsCommandChar);
    assert SkipSpaces(s, 1) == 1 && SkipSpaces(s, 2) == 2;
    assert QuoteAfterCount(s, 3) == Some(5 + n);
  }

  lemma NoCommandPastStart(d: string, w: string)
    requires IsDigitString(d)
    requires forall k :: 0 <= k < |w| ==> IsCommandChar(w[k])
    ensures forall p :: 1 <= p <= |ValueTag(d, w)| ==> CommandAt(ValueTag(d, w), p).None?
  {
    var s := ValueTag(d, w);
    var n := |d|;
    CommandTagLayout(d, w);
    forall p | 1 <= p < |s| ensures s[p] != '<' {
      if 3 <= p < 3 + n {
        assert IsDigit(s[p]);
      } else if 6 + n <= p < 6 + n + |w| {
        assert IsCommandChar(s[p]);
      }
    }
  }

  /** Scenario: a three-letter command text is not a command name; a seven-letter one is. */
  lemma CommandNameScenario(d: string)
    requires IsDigitString(d)
    ensures "RCMD" !in ParseCommand(ValueTag(d, "ABC"))
    ensures var r := ParseCommand(ValueTag(d, "ABCDEFG"));
            "RCMD" in r && r["RCMD"] == Str("ABCDEFG")
  {
    CommandNameLength(d, "ABC");
    CommandNameLength(d, "ABCDEFG");
  }

  /** The text a lot id is written as: the name (in any case), a value marker declaring
      `d` characters, and the quoted id. */
  function LotIdField(name: string, d: string, id: string): string
  {
    "'" + name + "'><A[" + d + "] '" + id + "'"
  }

  /** A lot id written after its name is read back, whatever the name's case. */
  lemma LotIdRoundTrip(name: string, d: string, id: string)
    requires FoldedAt(name, 0, "lotid") && |name| == 5
    requires IsDigitString(d)
    requires forall k :: 0 <= k < |id| ==> id[k] != '\''
    ensures LotIdAt(LotIdField(name, d, id), 0) == Some(id)
    ensures var r := ParseCommand(LotIdField(name, d, id));
            "LotID" in r && r["LotID"] == Str(id)
  {
    LotIdAtField(name, d, id);
    FirstMatchAtStart(LotIdField(name, d, id), LotIdAt, id);
  }

  lemma LotIdAtField(name: string, d: string, id: string)
    requires FoldedAt(name, 0, "lotid") && |name| == 5
    requires IsDigitString(d)
    requires forall k :: 0 <= k < |id| ==> id[k] != '\''
    ensures LotIdAt(LotIdField(name, d, id), 0) == Some(id)
  {
    var s := LotIdField(name, d, id);
    LotIdLayout(name, d, id);
    assert QuotedNameAt(s, 0, "lotid");
    LotValueLaidOut(s, |d|, |id|);
  }

  /** `LotValueAt` after the name, on text laid out as `><A[digits] 'id'`, by positions
      alone. */
  lemma LotValueLaidOut(s: string, n: nat, m: nat)
    requires n > 0 && |s| == 15 + n + m
    requires s[7] == '>' && s[8] == '<' && s[9] == 'A' && s[10] == '['
    requires forall k :: 11 <= k < 11 + n ==> IsDigit(s[k])
    requires s[11 + n] == ']' && s[12 + n] == ' ' && s[13 + n] == '\''
    requires forall k :: 14 + n <= k < 14 + n + m ==> NotQuote(s[k])
    requires s[14 + n + m] == '\''
    ensures LotValueAt(s, 7) == Some(s[14 + n..14 + n + m])
  {
    SkipWhileExact(s, 7, 7, IsSpace);
    SkipWhileExact(s, 8, 8, IsSpace);
    assert SkipSpaces(s, 7) == 7 && SkipSpaces(s, 8) == 8;
    CountedValueLaidOut(s, 11, n, m);
  }

  /** A declared count, then a quoted value, is read as that value. */
  lemma CountedValueLaidOut(s: string, c: nat, n: nat, m: nat)
    requires n > 0 && c + n + m + 3 < |s|
    requires forall k :: c <= k < c + n ==> IsDigit(s[k])
    requires s[c + n] == ']' && s[c + n + 1] == ' ' && s[c + n + 2] == '\''
    requires forall k :: c + n + 3 <= k < c + n + 3 + m ==> NotQuote(s[k])
    requires s[c + n + 3 + m] == '\''
    ensures CountedValueAt(s, c) == Some(s[c + n + 3..c + n + 3 + m])
  {
    QuoteAfterCountAt(s, c, n);
    SkipWhileExact(s, c + n + 3, c + n + 3 + m, NotQuote);
  }

  /** A declared count `[digits] '` is read up to its quote. */
  lemma QuoteAfterCountAt(s: string, c: nat, n: nat)
    requires n > 0 && c + n + 2 < |s|
    requires forall k :: c <= k < c + n ==> IsDigit(s[k])
    requires s[c + n] == ']' && s[c + n + 1] == ' ' && s[c + n + 2] == '\''
    ensures QuoteAfterCount(s, c) == Some(c + n + 2)
  {
    SkipWhileExact(s, c, c + n, IsDigit);
    SkipWhileExact(s, c + n + 1, c + n + 2, IsSpace);
  }

  lemma LotIdLayout(name: string, d: string, id: string)
    requires FoldedAt(name, 0, "lotid") && |name| == 5
    requires IsDigitString(d)
    requires forall k :: 0 <= k < |id| ==> id[k] != '\''
    ensures var s := LotIdField(name, d, id);
            var n := |d|;
            && |s| == 15 + n + |id|
            && s[0] == '\'' && FoldedAt(s, 1, "lotid") && s[6] == '\''
            && s[7] == '>' && s[8] == '<' && s[9] == 'A' && s[10] == '['
            && (forall k :: 11 <= k < 11 + n ==> IsDigit(s[k]))
            && s[11 + n] == ']' && s[12 + n] == ' ' && s[13 + n] == '\''
            && (forall k :: 14 + n <= k < 14 + n + |id| ==> NotQuote(s[k]))
            && s[14 + n..14 + n + |id|] == id
            && s[14 + n + |id|] == '\''
  {
    var s := LotIdField(name, d, id);
    var n := |d|;
    assert forall k :: 0 <= k < 5 ==> s[1 + k] == name[k];
    assert forall k :: 11 <= k < 11 + n ==> s[k] == d[k - 11];
    assert forall k :: 14 + n <= k < 14 + n + |id| ==> s[k] == id[k - 14 - n];
  }

  /** The text a panel count is written as: the name (in any case) and a list marker
      declaring `n` entries. */
  function PanelsField(name: string, n: nat): string
  {
    "'" + name + "'>" + ListMarker(n)
  }

  /** A panel count written as the declared size of the panel list is read back. */
  lemma PanelsRoundTrip(name: string, n: nat)
    requires FoldedAt(name, 0, "lotpanels") && |name| == 9
    ensures PanelsAt(PanelsField(name, n), 0) == Some(n)
    ensures var r := ParseCommand(PanelsField(name, n));
            "PanelCount" in r && r["PanelCount"] == Num(n)
  {
    var s := PanelsField(name, n);
    PanelsLayout(name, n);
    PanelsCountLaidOut(s, |NatToDecimal(n)|);
    FirstMatchAtStart(s, PanelsAt, n);
  }

  lemma PanelsLayout(name: string, n: nat)
    requires FoldedAt(name, 0, "lotpanels") && |name| == 9
    ensures var s := PanelsField(name, n);
            var d := NatToDecimal(n);
            && |s| == 16 + |d| && QuotedNameAt(s, 0, "lotpanels")
            && s[11] == '>' && s[12] == '<' && s[13] == 'L' && s[14] == '['
            && (forall k :: 15 <= k < 15 + |d| ==> IsDigit(s[k]))
            && s[15 + |d|] == ']'
            && s[15..15 + |d|] == d
  {
    var s := PanelsField(name, n);
    var d := NatToDecimal(n);
    assert forall k :: 0 <= k < 9 ==> s[1 + k] == name[k];
    assert forall k :: 15 <= k < 15 + |d| ==> s[k] == d[k - 15];
    assert s[15..15 + |d|] == d;
  }

  /** `PanelsCountAt` after the name, on text laid out as `><L[digits]`, by positions
      alone. */
  lemma PanelsCountLaidOut(s: string, m: nat)
    requires m > 0 && 16 + m <= |s|
    requires s[11] == '>' && s[12] == '<' && s[13] == 'L' && s[14] == '['
    requires forall k :: 15 <= k < 15 + m ==> IsDigit(s[k])
    requires s[15 + m] == ']'
    ensures PanelsCountAt(s, 11) == Some(DecimalValue(s[15..15 + m]))
  {
    SkipWhileExact(s, 11, 11, IsSpace);
    SkipWhileExact(s, 12, 12, IsSpace);
    SkipWhileExact(s, 14, 14, IsSpace);
    SkipWhileExact(s, 15, 15 + m, IsDigit);
  }
}
