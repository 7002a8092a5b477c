/** The tokenizer for one message body (`tokenize` in parser_utils.py).

    The body is scanned left to right as `re.finditer` scans it with the alternation
    LIST_START | LIST_END | VALUE | SKIP: at each position the first alternative that
    matches wins and scanning resumes after it; a position where none matches is
    passed over. Each alternative is written out as a matcher. No backtracking is
    modelled because each pattern has a single match at a given position: a greedy run
    of a class stops at the first character outside it, the lazy `.*?>` of a value tag
    stops at the first `>` before a newline (`CloseOnLine`), and `'(.*)'\s*>$` can
    close at only one quote (`ClosingQuote`). */
module Tokenizer {
  import opened Text

  /** The token kinds `tokenize` yields. The matched text of the list markers is not
      kept: the tree builder only looks at their kind. */
  datatype Token = ListStart | ListEnd | Value(payload: string)

  /** A payload that can be written back between quotes inside a value marker:
      no `>` (it would end the marker) and no newline (`.` does not cross one). */
  predicate Renderable(p: string)
  {
    forall k :: 0 <= k < |p| ==> p[k] != '>' && p[k] != '\n'
  }

  /** `<\s*L\s*\[\d+\]` at the start of `s`: the length of the match. */
  function ListStartLen(s: string): (r: Option<nat>)
    ensures r.Some? ==> 0 < r.value <= |s| && s[0] == '<'
  {
    if |s| == 0 || s[0] != '<' then None
    else
      var a := SkipSpaces(s, 1);
      if a == |s| || s[a] != 'L' then None
      else
        var b := SkipSpaces(s, a + 1);
        if b == |s| || s[b] != '[' then None
        else
          var d := SkipDigits(s, b + 1);
          if d == b + 1 || d == |s| || s[d] != ']' then None
          else Some(d + 1)
  }

  /** The lazy `.*?>` from `e`: the first `>` at or after `e`, if no newline comes first. */
  function CloseOnLine(s: string, e: nat): (r: Option<nat>)
    requires e <= |s|
    ensures r.Some? ==> e <= r.value < |s| && s[r.value] == '>'
                        && forall m :: e <= m < r.value ==> s[m] != '>' && s[m] != '\n'
    decreases |s| - e
  {
    if e == |s| then None
    else if s[e] == '>' then Some(e)
    else if s[e] == '\n' then None
    else CloseOnLine(s, e + 1)
  }

  /** What a VALUE match looks like: it opens with `<` and ends at its only `>`. */
  predicate ValueTagShape(w: string)
  {
    && |w| >= 2 && w[0] == '<' && w[|w| - 1] == '>'
    && forall m :: 0 <= m < |w| - 1 ==> w[m] != '>'
  }

  /** `<\s*[A-Z]\d*\s*\[\d+\]\s*.*?>` at the start of `s`: the length of the match. */
  function ValueTagLen(s: string): (r: Option<nat>)
    ensures r.Some? ==> 0 < r.value <= |s| && ValueTagShape(s[..r.value])
  {
    match ValueHeadEnd(s)
    case None => None
    case Some(e) =>
      match CloseOnLine(s, e)
      case None => None
      case Some(k) => Some(k + 1)
  }

  /** The part `<\s*[A-Z]\d*\s*\[\d+\]\s*` of a value marker at the start of `s`: where it
      ends. It holds no `>`. */
  function ValueHeadEnd(s: string): (r: Option<nat>)
    ensures r.Some? ==> 0 < r.value <= |s| && s[0] == '<' && forall m :: 0 <= m < r.value ==> s[m] != '>'
  {
    if |s| == 0 || s[0] != '<' then None
    else
      var a := SkipSpaces(s, 1);
      if a == |s| || !IsUpper(s[a]) then None
      else
        var b := SkipDigits(s, a + 1);
        assert forall m :: 0 <= m < b ==> s[m] != '>';
        CountEnd(s, b)
  }

  /** The part `\s*\[\d+\]\s*` from position `b`: where it ends, if it matches there, with
      no `>` in it. The `>` that ends the marker comes after it. */
  function CountEnd(s: string, b: nat): (r: Option<nat>)
    requires b <= |s|
    ensures r.Some? ==> b < r.value <= |s| && forall m :: b <= m < r.value ==> s[m] != '>'
  {
    var c := SkipSpaces(s, b);
    if c == |s| || s[c] != '[' then None
    else
      var d := SkipDigits(s, c + 1);
      if d == c + 1 || d == |s| || s[d] != ']' then None
      else Some(SkipSpaces(s, d + 1))
  }

  /** Which alternative of `'(.*)'\s*>$|([^\s>]+)\s*>$` matched, with its group. */
  datatype PayloadMatch = Quoted(text: string) | Bare(text: string)

  /** `\s*>$` at position `k`. */
  predicate ClosesAt(w: string, k: nat)
    requires k <= |w|
  {
    var m := SkipSpaces(w, k);
    m < |w| && w[m] == '>' && (m + 1 == |w| || (m + 2 == |w| && w[m + 1] == '\n'))
  }

  /** The class `[^\s>]`. */
  predicate IsBareChar(c: char)
  {
    !IsSpace(c) && c != '>'
  }

  /** A quote followed only by `\s*>` at the end. */
  predicate IsClosingQuote(w: string, q: nat)
  {
    q < |w| && w[q] == '\'' && ClosesAt(w, q + 1)
  }

  /** The closing quote of `'(.*)'\s*>$` when the text after the opening quote starts at
      `k`: a quote followed only by `\s*>` at the end, reached without crossing a newline.
      At most one quote is followed only by whitespace and the final `>`, so the first
      candidate is also the one the greedy `.*` settles on. */
  function ClosingQuote(w: string, k: nat): (r: Option<nat>)
    requires k <= |w|
    ensures r.Some? ==> && k <= r.value < |w| && IsClosingQuote(w, r.value)
                        && forall m :: k <= m < r.value ==> w[m] != '\n'
    decreases |w| - k
  {
    if k == |w| then None
    else if IsClosingQuote(w, k) then Some(k)
    else if w[k] == '\n' then None
    else ClosingQuote(w, k + 1)
  }

  /** The payload pattern tried at position `p`: the quoted alternative first, then the bare one. */
  function PayloadAt(w: string, p: nat): (r: Option<PayloadMatch>)
    ensures r.Some? ==> p < |w|
    ensures r.Some? && r.value.Bare? ==> |r.value.text| > 0
    ensures r.Some? ==> forall k :: 0 <= k < |r.value.text| ==> r.value.text[k] != '\n'
    ensures r.Some? && ValueTagShape(w) ==> Renderable(r.value.text)
  {
    if p >= |w| then None
    else if w[p] == '\'' && ClosingQuote(w, p + 1).Some? then
      var q := ClosingQuote(w, p + 1).value;
      Some(Quoted(w[p + 1..q]))
    else
      var j := SkipWhile(w, p, IsBareChar);
      if j > p && ClosesAt(w, j) then Some(Bare(w[p..j])) else None
  }

  /** `re.search` of the payload pattern over a VALUE match. */
  function SearchPayload(w: string): Option<PayloadMatch>
  {
    FirstMatch(w, 0, PayloadAt)
  }

  /** The payload pattern always matches a VALUE match, so the branch of `tokenize` that
      drops a value tag for want of a payload match is never taken; the payload it
      picks can be written back into a value marker. */
  lemma TagPayloadExists(w: string)
    requires ValueTagShape(w)
    ensures SearchPayload(w).Some?
    ensures Renderable(SearchPayload(w).value.text)
  {
    var body := w[..|w| - 1];
    var j := TrimEnd(body, 0);
    assert body[0..] == body;
    assert !IsSpace(body[0]);
    assert j > 0;
    var r := j - 1;
    assert body[j..] == w[j..|w| - 1];
    assert forall m :: j <= m < |w| - 1 ==> IsSpace(w[m]) by {
      forall m | j <= m < |w| - 1 ensures IsSpace(w[m]) {
        assert body[j..][m - j] == w[m];
      }
    }
    SkipWhileExact(w, r, j, IsBareChar);
    SkipWhileExact(w, j, |w| - 1, IsSpace);
    assert ClosesAt(w, j);
    assert PayloadAt(w, r).Some?;
    FirstMatchSpec(w, 0, PayloadAt);
  }

  /** The tokens one VALUE match yields: one `Value` carrying the text of whichever
      group of the payload pattern matched, the empty text of `''` included; it agrees
      with the source wherever `group(1) or group(2)` is not None. */
  function ValueTokens(w: string): (r: seq<Token>)
    ensures |r| <= 1
    ensures ValueTagShape(w) ==> |r| == 1 && r[0].Value? && Renderable(r[0].payload)
    ensures ValueTagShape(w) ==> SearchPayload(w).Some? && r[0].payload == SearchPayload(w).value.text
    ensures ValueTagShape(w) && PayloadAsWritten(SearchPayload(w).value).Some? ==>
              r[0].payload == PayloadAsWritten(SearchPayload(w).value).value
  {
    var r := match SearchPayload(w)
      case None => []
      case Some(m) => [Value(m.text)];
    if ValueTagShape(w) then TagPayloadExists(w); r else r
  }

  /** What `val_match.group(1) or val_match.group(2)` yields for a payload match, with
      None for Python's None: an empty quoted string is falsy and group 2 did not take
      part in the match, so the empty payload of `''` is lost. */
  function PayloadAsWritten(m: PayloadMatch): (r: Option<string>)
    ensures r.Some? ==> r.value == m.text
    ensures r.None? <==> m == Quoted("")
  {
    match m
    case Quoted(t) => if t != "" then Some(t) else None
    case Bare(b) => Some(b)
  }

  /** One match of the alternation at the start of a body: the tokens it yields and
      how many characters it consumes. */
  datatype Lexeme = Lexeme(tokens: seq<Token>, width: nat)

  /** The alternative that matches at the start of `s`, tried in order: a list opening,
      a list closing, a value marker, a whitespace run; a character that starts none of
      them is passed over. */
  function NextLexeme(s: string): (x: Lexeme)
    requires s != []
    ensures 0 < x.width <= |s| && |x.tokens| <= 1
    ensures forall k :: 0 <= k < |x.tokens| && x.tokens[k].Value? ==> Renderable(x.tokens[k].payload)
  {
    match ListStartLen(s)
    case Some(n) => Lexeme([ListStart], n)
    case None =>
      if s[0] == '>' then Lexeme([ListEnd], 1)
      else match ValueTagLen(s)
        case Some(n) => Lexeme(ValueTokens(s[..n]), n)
        case None =>
          if IsSpace(s[0]) then Lexeme([], SkipSpaces(s, 0))
          else Lexeme([], 1)
  }

  /** The tokens of a message body, in order. Whitespace runs and characters that start
      no marker yield nothing; each token consumes at least one character. */
  function Tokenize(s: string): (r: seq<Token>)
    ensures |r| <= |s|
    ensures forall k :: 0 <= k < |r| && r[k].Value? ==> Renderable(r[k].payload)
    decreases |s|
  {
    if s == [] then []
    else
      var x := NextLexeme(s);
      x.tokens + Tokenize(s[x.width..])
  }

  /** `Tokenize` on a body that opens with a list marker. */
  lemma TokenizeListStart(s: string, n: nat)
    requires ListStartLen(s) == Some(n)
    ensures Tokenize(s) == [ListStart] + Tokenize(s[n..])
  {
  }

  /** `Tokenize` on a body that opens with `>`. */
  lemma TokenizeListEnd(s: string)
    requires |s| > 0 && s[0] == '>'
    ensures Tokenize(s) == [ListEnd] + Tokenize(s[1..])
  {
  }

  /** `Tokenize` on a body that opens with a value marker. */
  lemma TokenizeValue(s: string, n: nat)
    requires ListStartLen(s).None? && |s| > 0 && s[0] != '>'
    requires ValueTagLen(s) == Some(n)
    ensures Tokenize(s) == ValueTokens(s[..n]) + Tokenize(s[n..])
  {
  }

  /** Whitespace before a body yields no token (SKIP matches are dropped). */
  lemma {:induction false} TokenizeSkipsSpaces(ws: string, s: string)
    requires AllSpaces(ws)
    ensures Tokenize(ws + s) == Tokenize(s)
  {
    if ws == [] {
      assert ws + s == s;
    } else {
      var t := ws + s;
      var k' := SkipSpaces(s, 0);
      calc {
        Tokenize(t);
        { TokenizeSpace(t); }
        Tokenize(t[SkipSpaces(t, 0)..]);
        { SkipSpacesPrefix(ws, s); }
        Tokenize(s[k'..]);
        { if k' == 0 { assert s[0..] == s; } else { TokenizeSpace(s); } }
        Tokenize(s);
      }
    }
  }

  /** Skipping the whitespace of `ws + s` lands where skipping that of `s` does. */
  lemma SkipSpacesPrefix(ws: string, s: string)
    requires AllSpaces(ws)
    ensures (ws + s)[SkipSpaces(ws + s, 0)..] == s[SkipSpaces(s, 0)..]
  {
    var t := ws + s;
    var k' := SkipSpaces(s, 0);
    assert forall m :: 0 <= m < |ws| + k' ==> IsSpace(t[m]);
    SkipWhileExact(t, 0, |ws| + k', IsSpace);
    assert t[|ws| + k'..] == s[k'..];
  }

  /** `Tokenize` on a body that opens with whitespace: the whole run is skipped. */
  lemma TokenizeSpace(s: string)
    requires |s| > 0 && IsSpace(s[0])
    ensures Tokenize(s) == Tokenize(s[SkipSpaces(s, 0)..])
  {
  }

  /** A character that starts no marker and is not whitespace is passed over. */
  lemma TokenizeDropsStray(c: char, s: string)
    requires c != '<' && c != '>' && !IsSpace(c)
    ensures Tokenize([c] + s) == Tokenize(s)
  {
    assert ([c] + s)[1..] == s;
  }

  /** A value marker whose content is a quoted text after whitespace yields that text,
      whatever quotes the text itself holds, the empty text included. */
  lemma QuotedTagPayload(h: string, sp: string, t: string, sp2: string)
    requires forall k :: 0 <= k < |h| ==> h[k] != '\'' && h[k] != '>'
    requires |sp| > 0 && AllSpaces(sp)
    requires Renderable(t)
    requires AllSpaces(sp2)
    ensures SearchPayload(h + sp + "'" + t + "'" + sp2 + ">") == Some(Quoted(t))
  {
    var w := h + sp + "'" + t + "'" + sp2 + ">";
    var o := |h| + |sp|;
    var c := o + 1 + |t|;
    QuotedTagLayout(h, sp, t, sp2);
    QuotedAt(w, o, c);
    assert w[o + 1..c] == t;
    NothingBeforeQuote(w, |h|, o);
    FirstMatchSkip(w, 0, o, PayloadAt);
  }

  /** The payload pattern at an opening quote `o` whose closing quote is `c`. */
  lemma QuotedAt(w: string, o: nat, c: nat)
    requires o < c < |w| - 1 && w[o] == '\'' && w[c] == '\'' && w[|w| - 1] == '>'
    requires forall x :: o < x < c ==> w[x] != '\n'
    requires forall x :: c < x < |w| - 1 ==> IsSpace(w[x])
    requires forall x :: 0 <= x < |w| - 1 ==> w[x] != '>'
    ensures PayloadAt(w, o) == Some(Quoted(w[o + 1..c]))
  {
    NoEarlyClose(w, c);
    SkipWhileExact(w, c + 1, |w| - 1, IsSpace);
    assert IsClosingQuote(w, c);
    ClosingQuoteWalk(w, o + 1, c);
  }

  /** No payload match starts before the opening quote `o`. */
  lemma NothingBeforeQuote(w: string, g: nat, o: nat)
    requires g < o < |w| - 1
    requires forall x :: 0 <= x < o ==> w[x] != '\''
    requires forall x :: g <= x < o ==> IsSpace(w[x])
    requires !IsSpace(w[o])
    requires forall x :: 0 <= x < |w| - 1 ==> w[x] != '>'
    ensures forall p :: 0 <= p < o ==> PayloadAt(w, p).None?
  {
    forall p | 0 <= p < o
      ensures PayloadAt(w, p).None?
    {
      NoPayloadBeforeQuote(w, g, o, p);
    }
  }

  /** Where each part of a quoted value marker sits. */
  lemma QuotedTagLayout(h: string, sp: string, t: string, sp2: string)
    requires forall k :: 0 <= k < |h| ==> h[k] != '\'' && h[k] != '>'
    requires |sp| > 0 && AllSpaces(sp)
    requires Renderable(t)
    requires AllSpaces(sp2)
    ensures var w := h + sp + "'" + t + "'" + sp2 + ">";
            var o := |h| + |sp|;
            var c := o + 1 + |t|;
            && |w| == c + 2 + |sp2|
            && w[o] == '\'' && w[c] == '\'' && w[|w| - 1] == '>'
            && (forall x :: 0 <= x < |h| ==> w[x] != '\'' && !IsSpace(w[x]) ==> IsBareChar(w[x]))
            && (forall x :: 0 <= x < |h| ==> w[x] != '\'')
            && (forall x :: |h| <= x < o ==> IsSpace(w[x]))
            && (forall x :: o < x < c ==> w[x] != '\n')
            && (forall x :: c < x < |w| - 1 ==> IsSpace(w[x]))
            && (forall x :: 0 <= x < |w| - 1 ==> w[x] != '>')
  {
    var w := h + sp + "'" + t + "'" + sp2 + ">";
    var o := |h| + |sp|;
    var c := o + 1 + |t|;
    assert forall x :: 0 <= x < |h| ==> w[x] == h[x];
    assert forall x :: |h| <= x < o ==> w[x] == sp[x - |h|];
    assert forall x :: o < x < c ==> w[x] == t[x - o - 1];
    assert forall x :: c < x < |w| - 1 ==> w[x] == sp2[x - c - 1];
  }

  /** Before the last non-space character no `\s*>$` can start. */
  lemma NoEarlyClose(w: string, c: nat)
    requires c < |w| - 1 && !IsSpace(w[c])
    requires forall x :: 0 <= x < |w| - 1 ==> w[x] != '>'
    ensures forall k :: 0 <= k <= c ==> !ClosesAt(w, k)
  {
    forall k | 0 <= k <= c
      ensures !ClosesAt(w, k)
    {
      var m := SkipSpaces(w, k);
      assert !IsSpace(w[c]);
    }
  }

  /** No payload match starts in front of the opening quote `o` when a space at `g`
      separates the header from it. */
  lemma NoPayloadBeforeQuote(w: string, g: nat, o: nat, p: nat)
    requires p < o < |w| - 1 && g <= o
    requires forall x :: 0 <= x < o ==> w[x] != '\''
    requires forall x :: g <= x < o ==> IsSpace(w[x])
    requires p < g ==> g < o
    requires !IsSpace(w[o])
    requires forall x :: 0 <= x < |w| - 1 ==> w[x] != '>'
    ensures PayloadAt(w, p).None?
  {
    NoEarlyClose(w, o);
    var j := SkipWhile(w, p, IsBareChar);
    if j > p {
      assert !IsBareChar(w[g]);
    }
  }

  /** `ClosingQuote` walks past every position before the closing quote. */
  lemma {:induction false} ClosingQuoteWalk(w: string, k: nat, c: nat)
    requires k <= c < |w|
    requires IsClosingQuote(w, c)
    requires forall m :: k <= m < c ==> w[m] != '\n' && !IsClosingQuote(w, m)
    ensures ClosingQuote(w, k) == Some(c)
    decreases c - k
  {
    if k < c {
      ClosingQuoteWalk(w, k + 1, c);
    }
  }

  /** A value marker with no whitespace in it yields its whole text up to the `>` as a
      bare word, quotes and header included: `<A[3]'abc'>` yields `<A[3]'abc'`
      rather than `abc`. */
  lemma UnspacedTagIsBare(x: string)
    requires |x| > 0 && x[0] != '\''
    requires forall k :: 0 <= k < |x| ==> IsBareChar(x[k])
    ensures SearchPayload(x + ">") == Some(Bare(x))
  {
    var w := x + ">";
    SkipWhileExact(w, 0, |x|, IsBareChar);
    SkipWhileExact(w, |x|, |x|, IsSpace);
    assert ClosesAt(w, |x|);
    assert w[0..|x|] == x;
    assert PayloadAt(w, 0) == Some(Bare(x));
  }

  /** The empty ASCII item `<A[0] ''>`: the quoted group matches the empty text, which the
      model keeps as the payload and `group(1) or group(2)` turns into None. */
  lemma EmptyQuoteLosesPayload()
    ensures SearchPayload("<A[0] ''>") == Some(Quoted(""))
    ensures ValueTokens("<A[0] ''>") == [Value("")]
    ensures PayloadAsWritten(SearchPayload("<A[0] ''>").value).None?
  {
    assert "<A[0] ''>" == "<A[0]" + " " + "'" + "" + "'" + "" + ">";
    QuotedTagPayload("<A[0]", " ", "", "");
  }
}
