/** The line scanner of `parse_log_file` in log_parser.py.

    The log is a sequence of lines. A line whose stripped text starts with a header
    `<timestamp>,[<channel>],<rest>` names a message. When the channel is a core send or
    receive and the next line opens an item list, the lines up to (not including) the
    next line that strips to `.` are the message body. The body is handed to the
    extractor for its message name, and the message becomes an event only when the
    extractor returns something. Every other line is skipped.

    `Scan` states the scan as a recursion over the line index, one header at a time;
    `ScanLines` and `CollectBlock` are the two nested index loops the source writes;
    `ParseLog` runs them, and they are proved to compute `Scan`. */
module LogScanner {
  import opened Text
  import opened Events
  import opened Report
  import opened Command

  // ----- the header line -----

  /** The three groups of a header: the timestamp, the channel tag between the
      brackets, and the rest of the line. */
  datatype LineHeader = LineHeader(timestamp: string, channel: string, rest: string)

  /** The fixed part of a timestamp `\d{4}/\d{2}/\d{2} \d{2}:\d{2}:\d{2}\.`,
      with `d` standing for one digit. */
  const StampShape: string := "dddd/dd/dd dd:dd:dd."

  /** `s` starts with the fixed part of a timestamp. */
  predicate FitsStamp(s: string)
  {
    |s| >= |StampShape|
    && forall k :: 0 <= k < |StampShape| ==>
         if StampShape[k] == 'd' then IsDigit(s[k]) else s[k] == StampShape[k]
  }

  /** A whole timestamp: the fixed part followed by one or more digits of the fraction. */
  predicate ValidStamp(ts: string)
  {
    FitsStamp(ts) && |ts| > |StampShape| && forall k :: |StampShape| <= k < |ts| ==> IsDigit(ts[k])
  }

  predicate NotCloseBracket(c: char) { c != ']' }

  predicate NotNewline(c: char) { c != '\n' }

  /** The groups a header can hold: a timestamp, a non-empty channel without `]`, and a
      rest that stays on one line (`.` does not match a newline). */
  predicate ValidHeader(h: LineHeader)
  {
    && ValidStamp(h.timestamp)
    && |h.channel| > 0 && (forall k :: 0 <= k < |h.channel| ==> NotCloseBracket(h.channel[k]))
    && forall k :: 0 <= k < |h.rest| ==> NotNewline(h.rest[k])
  }

  /** The text a header's groups are read from. */
  function HeaderText(h: LineHeader): string
  {
    h.timestamp + ",[" + h.channel + "]," + h.rest
  }

  /** A line laid out as a header whose timestamp ends at `e`, whose channel ends at
      `c` and whose rest ends at `t`: the end of the line or a newline. */
  predicate HeaderCut(line: string, e: nat, c: nat, t: nat)
  {
    FitsStamp(line) && GroupCut(line, e, c, t)
  }

  /** The part of that layout after the fixed part of the timestamp. */
  predicate GroupCut(line: string, e: nat, c: nat, t: nat)
  {
    && |StampShape| < e && e + 2 <= |line|
    && (forall k :: |StampShape| <= k < e ==> IsDigit(line[k]))
    && line[e] == ',' && line[e + 1] == '['
    && TailCut(line, e + 2, c, t)
  }

  /** The part of that layout from the channel on, the channel starting at `b`. */
  predicate TailCut(line: string, b: nat, c: nat, t: nat)
  {
    && b < c && c + 2 <= t <= |line|
    && (forall k :: b <= k < c ==> NotCloseBracket(line[k]))
    && line[c] == ']' && line[c + 1] == ','
    && (forall k :: c + 2 <= k < t ==> NotNewline(line[k]))
    && (t == |line| || line[t] == '\n')
  }

  /** Where the groups of `(\d{4}/\d{2}/\d{2} \d{2}:\d{2}:\d{2}\.\d+),\[([^\]]+)\],(.*)` end
      when `re.match` finds it at the start of the line (the match need not reach the end
      of the line). The digit runs and the channel run each stop at the first character
      outside their class, which is the character the pattern needs next; the last group
      takes the rest of the line up to the first newline, which is the first thing
      `re.match` tries, so no other split is possible. */
  function HeaderEnds(line: string): (r: Option<(nat, nat, nat)>)
    ensures r.Some? ==> HeaderCut(line, r.value.0, r.value.1, r.value.2)
  {
    if !FitsStamp(line) then None else GroupEnds(line)
  }

  /** The ends of the groups once the fixed part of the timestamp has matched. */
  function GroupEnds(line: string): (r: Option<(nat, nat, nat)>)
    requires |line| >= |StampShape|
    ensures r.Some? ==> GroupCut(line, r.value.0, r.value.1, r.value.2)
  {
    var e := SkipDigits(line, |StampShape|);
    if e == |StampShape| || e + 1 >= |line| || line[e] != ',' || line[e + 1] != '[' then None
    else match TailEnds(line, e + 2)
      case None => None
      case Some((c, t)) => Some((e, c, t))
  }

  /** The ends of the channel and of the rest, the channel starting at `b`. */
  function TailEnds(line: string, b: nat): (r: Option<(nat, nat)>)
    requires b <= |line|
    ensures r.Some? ==> TailCut(line, b, r.value.0, r.value.1)
  {
    var c := SkipWhile(line, b, NotCloseBracket);
    if c == b || c + 1 >= |line| || line[c + 1] != ',' then None
    else Some((c, SkipWhile(line, c + 2, NotNewline)))
  }

  /** `re.match` of the header pattern against the line: its three groups. */
  function MatchHeader(line: string): Option<LineHeader>
  {
    match HeaderEnds(line)
    case None => None
    case Some((e, c, t)) => Some(LineHeader(line[..e], line[e + 2..c], line[c + 2..t]))
  }

  /** The line starts with the text of `h`, which runs to the end of the line or to a
      newline. */
  predicate StartsLine(h: LineHeader, line: string)
  {
    HeaderText(h) <= line && (|HeaderText(h)| < |line| ==> line[|HeaderText(h)|] == '\n')
  }

  /** A header that is found is a valid one, and the line starts with its text, up to
      the end of the line or a newline. */
  lemma MatchHeaderSpec(line: string)
    ensures var r := MatchHeader(line);
            r.Some? ==> ValidHeader(r.value) && StartsLine(r.value, line)
  {
    match HeaderEnds(line)
    case None =>
    case Some((e, c, t)) =>
      var h := LineHeader(line[..e], line[e + 2..c], line[c + 2..t]);
      HeaderPartsValid(line, e, c, t);
      HeaderPartsText(line, e, c, t);
      assert MatchHeader(line) == Some(h);
  }

  /** The groups cut out of a line laid out as a header form a valid header. */
  lemma HeaderPartsValid(line: string, e: nat, c: nat, t: nat)
    requires HeaderCut(line, e, c, t)
    ensures ValidHeader(LineHeader(line[..e], line[e + 2..c], line[c + 2..t]))
  {
    StampShared(line, line[..e]);
  }

  /** The text of the groups cut out of a line laid out as a header is the line up to
      the end of the rest. */
  lemma HeaderPartsText(line: string, e: nat, c: nat, t: nat)
    requires e + 2 <= c && c + 2 <= t <= |line|
    requires line[e] == ',' && line[e + 1] == '[' && line[c] == ']' && line[c + 1] == ','
    requires t == |line| || line[t] == '\n'
    ensures HeaderText(LineHeader(line[..e], line[e + 2..c], line[c + 2..t])) == line[..t]
    ensures StartsLine(LineHeader(line[..e], line[e + 2..c], line[c + 2..t]), line)
  {
    assert line[..e + 2] == line[..e] + ",[";
    assert line[..c] == line[..e + 2] + line[e + 2..c];
    assert line[..c + 2] == line[..c] + "],";
    assert line[..t] == line[..c + 2] + line[c + 2..t];
    assert line[..t] <= line;
  }

  /** Text that agrees with a timestamp on its fixed part fits the stamp too. */
  lemma StampShared(a: string, b: string)
    requires FitsStamp(a) && |b| >= |StampShape|
    requires forall k :: 0 <= k < |StampShape| ==> b[k] == a[k]
    ensures FitsStamp(b)
  {
  }

  /** A valid header's text is matched, and the match gives back its groups; what follows
      on the line after a newline is not part of the rest. */
  lemma HeaderRoundTrip(h: LineHeader, tail: string)
    requires ValidHeader(h)
    requires tail == [] || tail[0] == '\n'
    ensures MatchHeader(HeaderText(h) + tail) == Some(h)
  {
    HeaderLayout(h, tail);
    MatchLaidOut(HeaderText(h) + tail, h);
  }

  /** A line laid out with the groups of `h` at their places is matched as `h`. */
  lemma MatchLaidOut(line: string, h: LineHeader)
    requires var n := |h.timestamp|;
             var c := n + 2 + |h.channel|;
             var t := c + 2 + |h.rest|;
             && HeaderCut(line, n, c, t)
             && line[..n] == h.timestamp && line[n + 2..c] == h.channel && line[c + 2..t] == h.rest
    ensures MatchHeader(line) == Some(h)
  {
    var n := |h.timestamp|;
    var c := n + 2 + |h.channel|;
    MatchAtLayout(line, h, n, c, c + 2 + |h.rest|);
  }

  /** A line laid out as a header is matched with the groups at those places: the
      layout fixes where the match ends. */
  lemma MatchAtLayout(line: string, h: LineHeader, n: nat, c: nat, t: nat)
    requires HeaderCut(line, n, c, t)
    requires line[..n] == h.timestamp && line[n + 2..c] == h.channel && line[c + 2..t] == h.rest
    ensures MatchHeader(line) == Some(h)
  {
    GroupsAtLayout(line, n, c, t);
    assert HeaderEnds(line) == Some((n, c, t));
  }

  lemma GroupsAtLayout(line: string, n: nat, c: nat, t: nat)
    requires GroupCut(line, n, c, t)
    ensures GroupEnds(line) == Some((n, c, t))
  {
    SkipWhileExact(line, |StampShape|, n, IsDigit);
    assert SkipDigits(line, |StampShape|) == n;
    TailAtLayout(line, n + 2, c, t);
  }

  lemma TailAtLayout(line: string, b: nat, c: nat, t: nat)
    requires TailCut(line, b, c, t)
    ensures TailEnds(line, b) == Some((c, t))
  {
    SkipWhileExact(line, b, c, NotCloseBracket);
    SkipWhileExact(line, c + 2, t, NotNewline);
  }

  /** Where the groups of a header sit in its text. */
  lemma HeaderLayout(h: LineHeader, tail: string)
    requires ValidHeader(h)
    requires tail == [] || tail[0] == '\n'
    ensures var line := HeaderText(h) + tail;
            var n := |h.timestamp|;
            var c := n + 2 + |h.channel|;
            var t := c + 2 + |h.rest|;
            && HeaderCut(line, n, c, t)
            && line[..n] == h.timestamp
            && line[n + 2..c] == h.channel
            && line[c + 2..t] == h.rest
  {
    var line := HeaderText(h) + tail;
    var n := |h.timestamp|;
    var c := n + 2 + |h.channel|;
    var t := c + 2 + |h.rest|;
    HeaderGroupsAt(h, tail);
    StampShared(h.timestamp, line);
    SliceClass(line, |StampShape|, n, IsDigit, h.timestamp[|StampShape|..]);
    SliceClass(line, n + 2, c, NotCloseBracket, h.channel);
    SliceClass(line, c + 2, t, NotNewline, h.rest);
  }

  /** The groups and separators of a header, at their places in its text. */
  lemma HeaderGroupsAt(h: LineHeader, tail: string)
    requires |h.timestamp| >= |StampShape|
    requires tail == [] || tail[0] == '\n'
    ensures var line := HeaderText(h) + tail;
            var n := |h.timestamp|;
            var c := n + 2 + |h.channel|;
            var t := c + 2 + |h.rest|;
            && |line| == t + |tail|
            && line[..n] == h.timestamp
            && (forall k :: 0 <= k < |StampShape| ==> line[k] == h.timestamp[k])
            && line[n] == ',' && line[n + 1] == '['
            && line[n + 2..c] == h.channel
            && line[c] == ']' && line[c + 1] == ','
            && line[c + 2..t] == h.rest
            && (t == |line| || line[t] == '\n')
            && line[|StampShape|..n] == h.timestamp[|StampShape|..]
  {
    GroupsOfLine(HeaderText(h) + tail, h.timestamp, h.channel, h.rest, tail);
  }

  /** The same, for a line given by its parts. */
  lemma GroupsOfLine(line: string, ts: string, ch: string, rest: string, tail: string)
    requires line == ts + ",[" + ch + "]," + rest + tail
    requires |ts| >= |StampShape|
    requires tail == [] || tail[0] == '\n'
    ensures var n := |ts|;
            var c := n + 2 + |ch|;
            var t := c + 2 + |rest|;
            && |line| == t + |tail|
            && line[..n] == ts
            && (forall k :: 0 <= k < |StampShape| ==> line[k] == ts[k])
            && line[n] == ',' && line[n + 1] == '['
            && line[n + 2..c] == ch
            && line[c] == ']' && line[c + 1] == ','
            && line[c + 2..t] == rest
            && (t == |line| || line[t] == '\n')
            && line[|StampShape|..n] == ts[|StampShape|..]
  {
    var n := |ts|;
    var c := n + 2 + |ch|;
    var t := c + 2 + |rest|;
    assert line == ts + (",[" + (ch + ("]," + (rest + tail))));
    assert line[..n] == ts;
    assert line[n + 2..c] == ch;
    assert line[c + 2..t] == rest;
  }

  /** A slice equal to text drawn from a class is drawn from it, position by position. */
  lemma SliceClass(s: string, a: nat, b: nat, f: char -> bool, x: string)
    requires a <= b <= |s| && s[a..b] == x
    requires forall k :: 0 <= k < |x| ==> f(x[k])
    ensures forall k :: a <= k < b ==> f(s[k])
  {
    forall k | a <= k < b ensures f(s[k]) {
      assert s[k] == x[k - a];
    }
  }

  // ----- the message name -----

  /** `:'(\w+)'` at position `k`: a quoted word after a colon. */
  function QuotedWordAt(s: string, k: nat): (r: Option<string>)
    ensures r.Some? ==> |r.value| > 0 && forall m :: 0 <= m < |r.value| ==> IsWordChar(r.value[m])
  {
    if !(k + 2 <= |s| && s[k] == ':' && s[k + 1] == '\'') then None
    else
      var e := SkipWhile(s, k + 2, IsWordChar);
      if e == k + 2 || e >= |s| || s[e] != '\'' then None else Some(s[k + 2..e])
  }

  /** `MessageName=(\w+)|Message=.*?:'(\w+)'` at position `p`. The first alternative is
      tried first. In the second, the lazy `.*?` stops at the first quoted word it
      reaches, and cannot cross a newline. */
  function NameAt(s: string, p: nat): Option<string>
  {
    if p > |s| then None
    else if "MessageName=" <= s[p..] && SkipWhile(s, p + 12, IsWordChar) > p + 12 then
      Some(s[p + 12..SkipWhile(s, p + 12, IsWordChar)])
    else if "Message=" <= s[p..] then
      FirstMatch(s[..SkipWhile(s, p + 8, NotNewline)], p + 8, QuotedWordAt)
    else None
  }

  /** The message name of a header: the captured word of the leftmost match, or "N/A"
      when the pattern does not occur. */
  function MessageName(rest: string): string
  {
    match FirstMatch(rest, 0, NameAt)
    case Some(w) => w
    case None => "N/A"
  }

  /** What either alternative captures is a non-empty word. */
  lemma {:induction false} NameAtWord(s: string, p: nat)
    ensures var r := NameAt(s, p);
            r.Some? ==> |r.value| > 0 && forall m :: 0 <= m < |r.value| ==> IsWordChar(r.value[m])
  {
    if p <= |s| && !("MessageName=" <= s[p..] && SkipWhile(s, p + 12, IsWordChar) > p + 12)
       && "Message=" <= s[p..] {
      var line := s[..SkipWhile(s, p + 8, NotNewline)];
      FirstMatchSpec(line, p + 8, QuotedWordAt);
    }
  }

  /** The name is "N/A" exactly when no position of the text starts a match, and is
      otherwise the non-empty word captured at the leftmost one. */
  lemma {:induction false} MessageNameSpec(rest: string)
    ensures MessageName(rest) == "N/A" <==> forall p :: 0 <= p <= |rest| ==> NameAt(rest, p).None?
    ensures MessageName(rest) != "N/A" ==>
              exists p :: 0 <= p <= |rest| && NameAt(rest, p) == Some(MessageName(rest))
                          && forall p' :: 0 <= p' < p ==> NameAt(rest, p').None?
  {
    FirstMatchSpec(rest, 0, NameAt);
    FoundNameIsWord(rest);
  }

  /** The leftmost capture is a word, so it is never "N/A". */
  lemma {:induction false} FoundNameIsWord(rest: string)
    ensures FirstMatch(rest, 0, NameAt).Some? ==> FirstMatch(rest, 0, NameAt).value != "N/A"
  {
    FirstMatchSpec(rest, 0, NameAt);
    var r := FirstMatch(rest, 0, NameAt);
    if r.Some? {
      var p :| 0 <= p <= |rest| && NameAt(rest, p) == r;
      NameAtWord(rest, p);
      if |r.value| == 3 {
        assert IsWordChar(r.value[1]);
      }
    }
  }

  /** `MessageName=` followed by a word names the message by that word. */
  lemma {:induction false} NameAfterMessageName(w: string, post: string)
    requires |w| > 0 && forall k :: 0 <= k < |w| ==> IsWordChar(w[k])
    requires post == [] || !IsWordChar(post[0])
    ensures MessageName("MessageName=" + w + post) == w
  {
    var s := "MessageName=" + w + post;
    assert "MessageName=" <= s[0..];
    assert forall k :: 12 <= k < 12 + |w| ==> s[k] == w[k - 12];
    SkipWhileExact(s, 12, 12 + |w|, IsWordChar);
    assert s[12..12 + |w|] == w;
  }

  /** `Message=` followed by text without a colon and then a quoted word after a colon
      names the message by that word. */
  lemma NameAfterMessage(x: string, w: string, post: string)
    requires forall k :: 0 <= k < |x| ==> x[k] != ':' && x[k] != '\n'
    requires |w| > 0 && forall k :: 0 <= k < |w| ==> IsWordChar(w[k])
    requires forall k :: 0 <= k < |post| ==> post[k] != '\n'
    ensures MessageName("Message=" + x + ":'" + w + "'" + post) == w
  {
    var s := "Message=" + x + ":'" + w + "'" + post;
    MessageLayout(x, w, post);
    MessageNameLaidOut(s, 8 + |x|, 10 + |x| + |w|);
  }

  /** Where the parts of such a text sit. */
  lemma MessageLayout(x: string, w: string, post: string)
    requires forall k :: 0 <= k < |x| ==> x[k] != ':' && x[k] != '\n'
    requires |w| > 0 && forall k :: 0 <= k < |w| ==> IsWordChar(w[k])
    requires forall k :: 0 <= k < |post| ==> post[k] != '\n'
    ensures var s := "Message=" + x + ":'" + w + "'" + post;
            var q := 8 + |x|;
            var e := q + 2 + |w|;
            && e < |s| && "Message=" <= s
            && (forall k :: 8 <= k < q ==> s[k] != ':' && s[k] != '\n')
            && s[q] == ':' && s[q + 1] == '\''
            && (forall k :: q + 2 <= k < e ==> IsWordChar(s[k]))
            && s[q + 2..e] == w
            && s[e] == '\''
            && (forall k :: e < k < |s| ==> s[k] != '\n')
  {
    var s := "Message=" + x + ":'" + w + "'" + post;
    var q := 8 + |x|;
    var e := q + 2 + |w|;
    assert forall k :: 8 <= k < q ==> s[k] == x[k - 8];
    assert forall k :: q + 2 <= k < e ==> s[k] == w[k - q - 2];
    assert forall k :: e + 1 <= k < |s| ==> s[k] == post[k - e - 1];
    assert s[q + 2..e] == w;
  }

  /** The name of a text `Message=…:'word'…` laid out by positions, with no colon before
      the one at `q`, the word ending at `e`, and no newline anywhere. */
  lemma MessageNameLaidOut(s: string, q: nat, e: nat)
    requires 8 <= q && q + 2 < e < |s| && "Message=" <= s
    requires forall k :: 8 <= k < q ==> s[k] != ':' && s[k] != '\n'
    requires s[q] == ':' && s[q + 1] == '\''
    requires forall k :: q + 2 <= k < e ==> IsWordChar(s[k])
    requires s[e] == '\''
    requires forall k :: e < k < |s| ==> s[k] != '\n'
    ensures MessageName(s) == s[q + 2..e]
  {
    assert s[7] == '=';
    assert !("MessageName=" <= s[0..]);
    assert "Message=" <= s[0..];
    SkipWhileExact(s, 8, |s|, NotNewline);
    assert s[..|s|] == s;
    QuotedWordLaidOut(s, q, e);
    forall k | 8 <= k < q ensures QuotedWordAt(s, k).None? {
      assert s[k] != ':';
    }
    FirstMatchSkip(s, 8, q, QuotedWordAt);
    assert NameAt(s, 0) == Some(s[q + 2..e]);
    FirstMatchAtStart(s, NameAt, s[q + 2..e]);
  }

  /** `:'word'` at `q`, with the word ending at `e`. */
  lemma QuotedWordLaidOut(s: string, q: nat, e: nat)
    requires q + 2 < e < |s|
    requires s[q] == ':' && s[q + 1] == '\''
    requires forall k :: q + 2 <= k < e ==> IsWordChar(s[k])
    requires s[e] == '\''
    ensures QuotedWordAt(s, q) == Some(s[q + 2..e])
  {
    SkipWhileExact(s, q + 2, e, IsWordChar);
  }

  /** A text without `=` names no message. */
  lemma {:induction false} NoNameWithoutEquals(rest: string)
    requires forall k :: 0 <= k < |rest| ==> rest[k] != '='
    ensures MessageName(rest) == "N/A"
  {
    forall p | 0 <= p <= |rest| ensures NameAt(rest, p).None? {
      assert p + 12 > |rest| || rest[p..][11] != '=';
      assert p + 8 > |rest| || rest[p..][7] != '=';
    }
    MessageNameSpec(rest);
  }

  // ----- the scan -----

  /** The channel tag of a core send or receive. */
  predicate IsBlockChannel(channel: string)
  {
    Contains(channel, "Core:Send") || Contains(channel, "Core:Receive")
  }

  /** A stripped line that opens an item list. */
  predicate OpensBlock(s: string)
  {
    |s| > 0 && s[0] == '<'
  }

  /** Where a body starting at line `k` ends: at the first line from `k` on that strips
      to `.`, or at the end of the log. */
  function BlockEnd(lines: seq<string>, k: nat, strip: string -> string): (r: nat)
    requires k <= |lines|
    ensures k <= r <= |lines|
    decreases |lines| - k
  {
    if k == |lines| || strip(lines[k]) == "." then k else BlockEnd(lines, k + 1, strip)
  }

  /** The body ends at the first line from `k` on that strips to `.`, or at the end of
      the log when there is none. */
  lemma {:induction false} BlockEndSpec(lines: seq<string>, k: nat, strip: string -> string)
    requires k <= |lines|
    ensures var r := BlockEnd(lines, k, strip);
            && (r < |lines| ==> strip(lines[r]) == ".")
            && (forall q :: k <= q < r ==> strip(lines[q]) != ".")
    decreases |lines| - k
  {
    if k < |lines| && strip(lines[k]) != "." {
      BlockEndSpec(lines, k + 1, strip);
    }
  }

  /** The text of the lines from `k` up to `j`, joined as they are. */
  function JoinLines(lines: seq<string>, k: nat, j: nat): string
    requires k <= j <= |lines|
    decreases j - k
  {
    if k == j then "" else lines[k] + JoinLines(lines, k + 1, j)
  }

  /** Joining a range of lines is joining the slice of those lines. */
  lemma {:induction false} JoinLinesConcat(lines: seq<string>, k: nat, j: nat)
    requires k <= j <= |lines|
    ensures JoinLines(lines, k, j) == Concat(lines[k..j])
    decreases j - k
  {
    if k < j {
      JoinLinesConcat(lines, k + 1, j);
      assert lines[k..j][1..] == lines[k + 1..j];
    }
  }

  /** The extractor for a message name: S6F11 reports and S2F49 commands; any other
      message yields nothing. */
  function Dispatch(name: string, text: string, cat: Catalogs): (r: Details)
    ensures r != map[] ==> name == "S6F11" || name == "S2F49"
  {
    if name == "S6F11" then ParseReport(text, cat)
    else if name == "S2F49" then ParseCommand(text)
    else map[]
  }

  /** An extractor: the details for a message name and a body text. */
  type Extractor = (string, string) -> Details

  /** The readers the scan is built from: how a line is stripped, the header pattern,
      the message-name pattern and the extractor for a message's body. */
  datatype Matchers = Matchers(
    strip: string -> string,
    header: string -> Option<LineHeader>,
    name: string -> string,
    extract: Extractor)

  /** The readers of the log parser, for given catalogs. */
  function Parser(cat: Catalogs): Matchers
  {
    Matchers(Strip, MatchHeader, MessageName, (name, text) => Dispatch(name, text, cat))
  }

  /** What the scan does at a line: the event that line starts, if any, and the index
      of the line the scan goes on from. */
  datatype LineStep = LineStep(event: Option<Event>, next: nat)

  /** One turn of the loop of `parse_log_file`, at line `i`: a blank line or a line
      without a header is passed over; a header of a core send or receive whose next
      line opens an item list starts a body, which runs up to the first line that strips
      to `.`; the body's extractor decides whether there is an event, and the scan goes
      on after the terminator. */
  function StepAt(lines: seq<string>, i: nat, m: Matchers): (st: LineStep)
    requires i < |lines|
    ensures i < st.next <= |lines| + 1
    ensures st.event.Some? ==> st.event.value.details != map[]
  {
    var line := m.strip(lines[i]);
    if line == "" then LineStep(None, i + 1)
    else match m.header(line)
      case None => LineStep(None, i + 1)
      case Some(h) =>
        var name := m.name(h.rest);
        if IsBlockChannel(h.channel) && i + 1 < |lines| && OpensBlock(m.strip(lines[i + 1])) then
          var j := BlockEnd(lines, i + 1, m.strip);
          var details := if j > i + 1 then m.extract(name, JoinLines(lines, i + 1, j)) else map[];
          LineStep(if details != map[] then Some(Event(h.timestamp, name, details)) else None, j + 1)
        else LineStep(None, i + 1)
  }

  /** The event a step reports, as a sequence of at most one. */
  function Found(st: LineStep): seq<Event>
  {
    if st.event.Some? then [st.event.value] else []
  }

  /** The events of the log from line `i` on, in the order their headers occur. */
  function ScanFrom(lines: seq<string>, i: nat, m: Matchers): seq<Event>
    decreases |lines| + 1 - i
  {
    if i >= |lines| then []
    else
      var st := StepAt(lines, i, m);
      Found(st) + ScanFrom(lines, st.next, m)
  }

  /** The events of the whole log. */
  function Scan(lines: seq<string>, m: Matchers): seq<Event>
  {
    ScanFrom(lines, 0, m)
  }

  /** `parse_log_file` from the decoded lines on: no file gives no events; otherwise the
      lines are scanned once, as `Scan` describes, and every event has details. */
  method ParseLog(file: Option<seq<string>>, cat: Catalogs) returns (events: seq<Event>)
    ensures file.None? ==> events == []
    ensures file.Some? && file.value == [] ==> events == []
    ensures file.Some? ==> events == Scan(file.value, Parser(cat))
    ensures forall k :: 0 <= k < |events| ==> events[k].details != map[]
  {
    if file.None? {
      return [];
    }
    var lines, m := file.value, Parser(cat);
    events := ScanLines(lines, m);
    assert events == ScanFrom(lines, 0, m);
    ScanDetails(lines, 0, m);
  }

  /** The loop of `parse_log_file` over the lines, for given readers. */
  method ScanLines(lines: seq<string>, m: Matchers) returns (events: seq<Event>)
    ensures events == Scan(lines, m)
  {
    events := [];
    var i: nat := 0;
    while i < |lines|
      invariant i <= |lines| + 1
      invariant events + ScanFrom(lines, i, m) == Scan(lines, m)
      decreases |lines| + 1 - i
    {
      var event, next := LineAt(lines, i, m);
      var first := if event.Some? then [event.value] else [];
      ScanStep(lines, i, m);
      Regroup(events, first, ScanFrom(lines, next, m), ScanFrom(lines, i, m));
      events, i := events + first, next;
    }
  }

  /** The scan from line `i` is the event of the step there, then the scan from where
      the step goes on. */
  lemma {:induction false} ScanStep(lines: seq<string>, i: nat, m: Matchers)
    requires i < |lines|
    ensures var st := StepAt(lines, i, m);
            ScanFrom(lines, i, m) == (if st.event.Some? then [st.event.value] else []) + ScanFrom(lines, st.next, m)
  {
  }

  lemma {:induction false} Regroup<T>(done: seq<T>, first: seq<T>, later: seq<T>, todo: seq<T>)
    requires todo == first + later
    ensures done + todo == (done + first) + later
  {
  }

  /** One turn of the loop: a blank line or a line without a header is passed over;
      a header line is handled by `HeaderStep`. */
  method LineAt(lines: seq<string>, i: nat, m: Matchers) returns (event: Option<Event>, next: nat)
    requires i < |lines|
    ensures StepAt(lines, i, m) == LineStep(event, next)
  {
    var line := m.strip(lines[i]);
    if line == "" {
      return None, i + 1;
    }
    var header := m.header(line);
    if header.None? {
      return None, i + 1;
    }
    event, next := HeaderStep(lines, i, header.value, m);
  }

  /** The work the loop does at a header line: collect the body if the header opens
      one, and build the event if the body's extractor returns something. */
  method HeaderStep(lines: seq<string>, i: nat, h: LineHeader, m: Matchers)
    returns (event: Option<Event>, next: nat)
    requires i < |lines|
    requires m.strip(lines[i]) != "" && m.header(m.strip(lines[i])) == Some(h)
    ensures StepAt(lines, i, m) == LineStep(event, next)
  {
    var name := m.name(h.rest);
    event := None;
    next := i + 1;
    if IsBlockChannel(h.channel) && i + 1 < |lines| && OpensBlock(m.strip(lines[i + 1])) {
      var block, j := CollectBlock(lines, i + 1, m.strip);
      next := j + 1;
      if block != [] {
        JoinLinesConcat(lines, i + 1, j);
        var details := m.extract(name, Concat(block));
        if details != map[] {
          event := Some(Event(h.timestamp, name, details));
        }
      }
    }
  }

  /** The inner loop: the lines from `k` up to the first one that strips to `.`. */
  method CollectBlock(lines: seq<string>, k: nat, strip: string -> string) returns (block: seq<string>, j: nat)
    requires k <= |lines|
    ensures j == BlockEnd(lines, k, strip)
    ensures block == lines[k..j]
  {
    j := k;
    block := [];
    while j < |lines| && strip(lines[j]) != "."
      invariant k <= j <= |lines|
      invariant block == lines[k..j]
      invariant BlockEnd(lines, j, strip) == BlockEnd(lines, k, strip)
    {
      block := block + [lines[j]];
      j := j + 1;
    }
  }

  // ----- properties of the scan -----

  /** The lines the events of `ScanFrom(lines, i, m)` start at. */
  function OriginsFrom(lines: seq<string>, i: nat, m: Matchers): seq<nat>
    decreases |lines| + 1 - i
  {
    if i >= |lines| then []
    else
      var st := StepAt(lines, i, m);
      (if st.event.Some? then [i] else []) + OriginsFrom(lines, st.next, m)
  }

  /** Events are in file order: each comes from its own header line, in increasing line
      order, and the next event starts after everything the previous one consumed. */
  lemma {:induction false} ScanOrigins(lines: seq<string>, i: nat, m: Matchers)
    ensures var es := ScanFrom(lines, i, m);
            var os := OriginsFrom(lines, i, m);
            && |os| == |es|
            && (forall k :: 0 <= k < |os| ==>
                  i <= os[k] < |lines| && StepAt(lines, os[k], m).event == Some(es[k]))
            && (forall k :: 0 <= k < |os| - 1 ==> StepAt(lines, os[k], m).next <= os[k + 1])
    decreases |lines| + 1 - i
  {
    if i < |lines| {
      var st := StepAt(lines, i, m);
      ScanOrigins(lines, st.next, m);
      var later, et := OriginsFrom(lines, st.next, m), ScanFrom(lines, st.next, m);
      if st.event.Some? {
        assert OriginsFrom(lines, i, m) == [i] + later;
        assert ScanFrom(lines, i, m) == [st.event.value] + et;
        ConsOrigins(lines, i, m, later, et);
      } else {
        assert OriginsFrom(lines, i, m) == later;
        assert ScanFrom(lines, i, m) == et;
      }
    }
  }

  /** The origins of an event at line `i` followed by those of the scan after it. */
  lemma {:induction false} ConsOrigins(lines: seq<string>, i: nat, m: Matchers, later: seq<nat>, et: seq<Event>)
    requires i < |lines| && StepAt(lines, i, m).event.Some?
    requires |later| == |et|
    requires forall k :: 0 <= k < |later| ==>
               StepAt(lines, i, m).next <= later[k] < |lines| && StepAt(lines, later[k], m).event == Some(et[k])
    requires forall k :: 0 <= k < |later| - 1 ==> StepAt(lines, later[k], m).next <= later[k + 1]
    ensures var os := [i] + later;
            var es := [StepAt(lines, i, m).event.value] + et;
            && (forall k :: 0 <= k < |os| ==>
                  i <= os[k] < |lines| && StepAt(lines, os[k], m).event == Some(es[k]))
            && (forall k :: 0 <= k < |os| - 1 ==> StepAt(lines, os[k], m).next <= os[k + 1])
  {
    var os := [i] + later;
    var es := [StepAt(lines, i, m).event.value] + et;
    forall k | 0 <= k < |os|
      ensures i <= os[k] < |lines| && StepAt(lines, os[k], m).event == Some(es[k])
    {
      if k > 0 {
        assert os[k] == later[k - 1] && es[k] == et[k - 1];
      }
    }
    forall k | 0 <= k < |os| - 1
      ensures StepAt(lines, os[k], m).next <= os[k + 1]
    {
      if k > 0 {
        assert os[k] == later[k - 1] && os[k + 1] == later[k];
      }
    }
  }

  /** Every event the scan reports has details: a body the extractor gives nothing for
      produces no event. */
  lemma {:induction false} ScanDetails(lines: seq<string>, i: nat, m: Matchers)
    ensures var es := ScanFrom(lines, i, m);
            forall k :: 0 <= k < |es| ==> es[k].details != map[]
  {
    ScanOrigins(lines, i, m);
  }

  /** Only S6F11 and S2F49 messages become events: the extractor gives nothing for any
      other message name. */
  lemma {:induction false} ScanMessageKinds(lines: seq<string>, i: nat, cat: Catalogs)
    ensures var es := ScanFrom(lines, i, Parser(cat));
            forall k :: 0 <= k < |es| ==> es[k].messageName == "S6F11" || es[k].messageName == "S2F49"
  {
    var es := ScanFrom(lines, i, Parser(cat));
    var os := OriginsFrom(lines, i, Parser(cat));
    ScanOrigins(lines, i, Parser(cat));
    forall k | 0 <= k < |es|
      ensures es[k].messageName == "S6F11" || es[k].messageName == "S2F49"
    {
      EventBlock(lines, os[k], Parser(cat));
    }
  }

  /** The body after the header at line `i` is non-empty and runs up to line `e`, the
      first line after the header that strips to `.` (or the end of the log). */
  predicate BodyRunsTo(lines: seq<string>, i: nat, e: nat, strip: string -> string)
  {
    && i + 1 < e <= |lines|
    && (e < |lines| ==> strip(lines[e]) == ".")
    && (forall q :: i + 1 <= q < e ==> strip(lines[q]) != ".")
  }

  /** A line that starts an event is a header of a core send or receive followed by a
      line opening an item list. The event's timestamp and name are the header's, and its
      details are what the extractor returns for the non-empty body that runs up to, and
      not including, the first line stripping to `.` (or the end of the log). The scan
      goes on after that line. */
  lemma {:induction false} EventBlock(lines: seq<string>, i: nat, m: Matchers)
    requires i < |lines| && StepAt(lines, i, m).event.Some?
    ensures var st := StepAt(lines, i, m);
            && m.header(m.strip(lines[i])).Some?
            && var h := m.header(m.strip(lines[i])).value;
            && IsBlockChannel(h.channel)
            && i + 1 < |lines| && OpensBlock(m.strip(lines[i + 1]))
            && st.event.value.timestamp == h.timestamp
            && st.event.value.messageName == m.name(h.rest)
            && exists e: nat :: && BodyRunsTo(lines, i, e, m.strip)
                           && st.event.value.details == m.extract(m.name(h.rest), Concat(lines[i + 1..e]))
                           && st.next == e + 1
  {
    var e := BlockEnd(lines, i + 1, m.strip);
    BlockEndSpec(lines, i + 1, m.strip);
    BodyNeverEmpty(lines, i + 1, m.strip);
    JoinLinesConcat(lines, i + 1, e);
    assert BodyRunsTo(lines, i, e, m.strip);
  }

  /** The body test of the source never fails: the line that opens the body is not a
      terminator, so the body holds at least that line. */
  lemma {:induction false} BodyNeverEmpty(lines: seq<string>, k: nat, strip: string -> string)
    requires k < |lines| && OpensBlock(strip(lines[k]))
    ensures BlockEnd(lines, k, strip) > k
  {
    assert strip(lines[k])[0] != '.';
  }

  /** Blank lines and lines that are not headers at the start of the log change nothing:
      the scan of the log is the scan from the first line after them. */
  lemma {:induction false} NoiseSkipped(lines: seq<string>, n: nat, m: Matchers)
    requires n <= |lines|
    requires forall k :: 0 <= k < n ==> m.strip(lines[k]) == "" || m.header(m.strip(lines[k])).None?
    ensures Scan(lines, m) == ScanFrom(lines, n, m)
  {
    var i := 0;
    while i < n
      invariant i <= n
      invariant ScanFrom(lines, 0, m) == ScanFrom(lines, i, m)
    {
      assert StepAt(lines, i, m) == LineStep(None, i + 1);
      i := i + 1;
    }
  }

  /** A header of a core send or receive at line `i`, a body and its terminator give
      one event, with the header's timestamp and name, when the extractor returns
      something for the body, and none otherwise; the scan then carries on after the
      terminator. Stated for any readers that strip line `i` to the header's text and
      read that text back, which the log parser's do for a header line as `readlines`
      gives it, ending in a newline (`ParserReadsHeader`). */
  lemma {:induction false} SingleMessage(lines: seq<string>, i: nat, n: nat, h: LineHeader, m: Matchers)
    requires i + n + 1 < |lines|
    requires m.strip(lines[i]) == HeaderText(h) && IsBlockChannel(h.channel)
    requires m.header(HeaderText(h)) == Some(h)
    requires n > 0 && OpensBlock(m.strip(lines[i + 1]))
    requires forall k :: i + 1 <= k <= i + n ==> m.strip(lines[k]) != "."
    requires m.strip(lines[i + n + 1]) == "."
    ensures var name := m.name(h.rest);
            var d := m.extract(name, Concat(lines[i + 1..i + n + 1]));
            ScanFrom(lines, i, m)
            == (if d != map[] then [Event(h.timestamp, name, d)] else []) + ScanFrom(lines, i + n + 2, m)
  {
    MessageStep(lines, i, n, h, m);
    ScanStep(lines, i, m);
  }

  /** The step the scan takes at such a header: past the terminator, with the event
      the extractor gives for the body. */
  lemma {:induction false} MessageStep(lines: seq<string>, i: nat, n: nat, h: LineHeader, m: Matchers)
    requires i + n + 1 < |lines|
    requires m.strip(lines[i]) == HeaderText(h) && IsBlockChannel(h.channel)
    requires m.header(HeaderText(h)) == Some(h)
    requires n > 0 && OpensBlock(m.strip(lines[i + 1]))
    requires forall k :: i + 1 <= k <= i + n ==> m.strip(lines[k]) != "."
    requires m.strip(lines[i + n + 1]) == "."
    ensures var name := m.name(h.rest);
            var d := m.extract(name, Concat(lines[i + 1..i + n + 1]));
            StepAt(lines, i, m) == LineStep(if d != map[] then Some(Event(h.timestamp, name, d)) else None, i + n + 2)
  {
    BlockEndAt(lines, i + 1, i + n + 1, m.strip);
    JoinLinesConcat(lines, i + 1, i + n + 1);
  }

  /** The log parser's readers read a valid header back when it is the whole line, and
      such a line, with or without the newline `readlines` leaves on it, strips to the
      header's text when it ends in a non-space. */
  lemma {:induction false} ParserReadsHeader(h: LineHeader, cat: Catalogs)
    requires ValidHeader(h)
    requires h.rest == [] || !IsSpace(h.rest[|h.rest| - 1])
    ensures Parser(cat).header(HeaderText(h)) == Some(h)
    ensures Parser(cat).strip(HeaderText(h)) == HeaderText(h)
    ensures Parser(cat).strip(HeaderText(h) + "\n") == HeaderText(h)
    ensures Parser(cat).strip(".") == "."
    ensures Parser(cat).name(h.rest) == MessageName(h.rest)
  {
    ParserFields(cat);
    ReadsHeaderWith(h, Parser(cat));
  }

  lemma ParserFields(cat: Catalogs)
    ensures Parser(cat).header == MatchHeader && Parser(cat).strip == Strip
    ensures Parser(cat).name == MessageName
  {
  }

  /** `ParserReadsHeader` for any readers with the log parser's header, strip and name
      readers. */
  lemma ReadsHeaderWith(h: LineHeader, m: Matchers)
    requires ValidHeader(h)
    requires h.rest == [] || !IsSpace(h.rest[|h.rest| - 1])
    requires m.header == MatchHeader && m.strip == Strip && m.name == MessageName
    ensures m.header(HeaderText(h)) == Some(h)
    ensures m.strip(HeaderText(h)) == HeaderText(h)
    ensures m.strip(HeaderText(h) + "\n") == HeaderText(h)
    ensures m.strip(".") == "."
    ensures m.name(h.rest) == MessageName(h.rest)
  {
    WholeLineHeader(h);
    HeaderStripped(h);
    DotStripped();
  }

  /** A line holding just a valid header's text is matched as that header. */
  lemma WholeLineHeader(h: LineHeader)
    requires ValidHeader(h)
    ensures MatchHeader(HeaderText(h)) == Some(h)
  {
    HeaderRoundTrip(h, []);
    assert HeaderText(h) + [] == HeaderText(h);
  }

  lemma DotStripped()
    ensures Strip(".") == "."
  {
    StripUnchanged(".");
  }

  /** A header with no trailing whitespace is its own stripped line. */
  lemma {:induction false} HeaderStripped(h: LineHeader)
    requires ValidHeader(h)
    requires h.rest == [] || !IsSpace(h.rest[|h.rest| - 1])
    ensures Strip(HeaderText(h)) == HeaderText(h)
    ensures Strip(HeaderText(h) + "\n") == HeaderText(h)
  {
    var s := HeaderText(h);
    assert s[0] == h.timestamp[0];
    assert IsDigit(s[0]) by { assert StampShape[0] == 'd'; }
    assert s[|s| - 1] == if h.rest == [] then ',' else h.rest[|h.rest| - 1];
    StripUnchanged(s);
    StripNewline(s);
  }

  /** Text that neither starts nor ends with whitespace is unchanged by stripping. */
  lemma {:induction false} StripUnchanged(s: string)
    requires |s| > 0 && !IsSpace(s[0]) && !IsSpace(s[|s| - 1])
    ensures Strip(s) == s
  {
  }

  /** Such text with a newline after it, as `readlines` gives a line, strips to the
      text. */
  lemma {:induction false} StripNewline(s: string)
    requires |s| > 0 && !IsSpace(s[0]) && !IsSpace(s[|s| - 1])
    ensures Strip(s + "\n") == s
  {
    var t := s + "\n";
    assert t[0] == s[0];
    assert StripStart(t) == t;
    assert t[..|t| - 1] == s;
    assert StripEnd(t) == StripEnd(s);
    StripUnchanged(s);
  }

  /** A body that reaches a terminator at `e` with no terminator before it ends there. */
  lemma {:induction false} BlockEndAt(lines: seq<string>, k: nat, e: nat, strip: string -> string)
    requires k <= e < |lines| && strip(lines[e]) == "."
    requires forall q :: k <= q < e ==> strip(lines[q]) != "."
    ensures BlockEnd(lines, k, strip) == e
    decreases e - k
  {
    if k < e {
      BlockEndAt(lines, k + 1, e, strip);
    }
  }
}
