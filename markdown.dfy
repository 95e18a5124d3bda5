/**
 * The markdown subset used for the agent's explanations: a line classifier
 * (renderMarkdown) and the `**bold**` splitter it applies inside lines
 * (formatInline). Output is a value instead of JSX.
 */
module Markdown {
  import opened Wrappers
  import opened Strings

  // ---------------------------------------------------------------------------
  // Character classes of ECMAScript regular expressions and String.prototype.trim
  // ---------------------------------------------------------------------------

  /** `\s`, which is also exactly the set `trim()` strips: WhiteSpace and LineTerminator. */
  predicate IsWhitespace(c: char) {
    || c == '\t' || c == '\n' || c == '\U{B}' || c == '\U{C}' || c == '\r' || c == ' '
    || c == '\U{A0}' || c == '\U{1680}' || ('\U{2000}' <= c <= '\U{200A}')
    || c == '\U{2028}' || c == '\U{2029}' || c == '\U{202F}' || c == '\U{205F}'
    || c == '\U{3000}' || c == '\U{FEFF}'
  }

  /** The characters the regular-expression `.` refuses to match. */
  predicate IsLineTerminator(c: char) {
    c == '\n' || c == '\r' || c == '\U{2028}' || c == '\U{2029}'
  }

  /** `\d` */
  predicate IsDigit(c: char) {
    '0' <= c <= '9'
  }

  // ---------------------------------------------------------------------------
  // text.split('\n')
  // ---------------------------------------------------------------------------

  function NewlineCount(s: string): nat {
    if s == [] then 0 else (if s[0] == '\n' then 1 else 0) + NewlineCount(s[1..])
  }

  /** The pieces of `s` between its newlines: one more piece than there are newlines. */
  function SplitLines(s: string): (lines: seq<string>)
    ensures |lines| == NewlineCount(s) + 1
    ensures forall i :: 0 <= i < |lines| ==> '\n' !in lines[i]
  {
    if s == [] then [""]
    else
      var rest := SplitLines(s[1..]);
      if s[0] == '\n' then [""] + rest
      else [[s[0]] + rest[0]] + rest[1..]
  }

  /** `lines.join('\n')`, the inverse of SplitLines. */
  function JoinLines(lines: seq<string>): string
    requires |lines| >= 1
  {
    if |lines| == 1 then lines[0] else lines[0] + "\n" + JoinLines(lines[1..])
  }

  lemma {:induction false} JoinSplitLines(s: string)
    ensures JoinLines(SplitLines(s)) == s
  {
    if s != [] {
      JoinSplitLines(s[1..]);
      var rest := SplitLines(s[1..]);
      if s[0] != '\n' && |rest| > 1 {
        assert JoinLines(rest) == rest[0] + "\n" + JoinLines(rest[1..]);
        assert [[s[0]] + rest[0]] + rest[1..] == [[s[0]] + rest[0]] + rest[1..][0..];
      }
      if s[0] == '\n' {
        assert [s[0]] + s[1..] == s;
      } else {
        assert [s[0]] + s[1..] == s;
      }
    }
  }

  lemma {:induction false} SplitLinesPrefix(a: string, b: string)
    requires '\n' !in a
    ensures SplitLines(a + "\n" + b) == [a] + SplitLines(b)
  {
    if a == [] {
      assert a + "\n" + b == "\n" + b;
      assert ("\n" + b)[1..] == b;
    } else {
      assert (a + "\n" + b)[1..] == a[1..] + "\n" + b;
      SplitLinesPrefix(a[1..], b);
      assert [a[0]] + a[1..] == a;
    }
  }

  lemma {:induction false} SplitJoinLines(lines: seq<string>)
    requires |lines| >= 1
    requires forall i :: 0 <= i < |lines| ==> '\n' !in lines[i]
    ensures SplitLines(JoinLines(lines)) == lines
  {
    if |lines| == 1 {
      SplitLinesNoNewline(lines[0]);
    } else {
      SplitJoinLines(lines[1..]);
      SplitLinesPrefix(lines[0], JoinLines(lines[1..]));
    }
  }

  lemma {:induction false} SplitLinesNoNewline(s: string)
    requires '\n' !in s
    ensures SplitLines(s) == [s]
  {
    if s != [] {
      SplitLinesNoNewline(s[1..]);
      assert [s[0]] + s[1..] == s;
    }
  }

  // ---------------------------------------------------------------------------
  // text.split(/\*\*(.*?)\*\*/g)
  // ---------------------------------------------------------------------------

  /** A `**` delimiter starts at index `i` of `s`. */
  predicate DelimAt(s: string, i: nat) {
    i + 2 <= |s| && s[i] == '*' && s[i + 1] == '*'
  }

  /**
   * Reference definition: a `.*?` begun at index `j` can stop at index `k`, where a
   * closing `**` starts, because no line terminator lies in between.
   */
  predicate Closes(s: string, j: nat, k: nat) {
    j <= k && DelimAt(s, k) && forall t :: j <= t < k ==> !IsLineTerminator(s[t])
  }

  /** The lazy `(.*?)\*\*` begun at `j`: the index of the closing delimiter, if any. */
  function CloseFrom(s: string, j: nat): (r: Option<nat>)
    decreases |s| - j
    ensures r.Some? ==> Closes(s, j, r.value)
    ensures r.Some? ==> forall k :: j <= k < r.value ==> !DelimAt(s, k)
  {
    if j + 2 > |s| then None
    else if DelimAt(s, j) then Some(j)
    else if IsLineTerminator(s[j]) then None
    else CloseFrom(s, j + 1)
  }

  /** CloseFrom picks the nearest closing delimiter, and fails only when there is none. */
  lemma {:induction false} CloseFromNearest(s: string, j: nat)
    decreases |s| - j
    ensures CloseFrom(s, j).Some? ==> forall k :: Closes(s, j, k) ==> CloseFrom(s, j).value <= k
    ensures CloseFrom(s, j).None? ==> forall k :: !Closes(s, j, k)
  {
    if j + 2 > |s| {
    } else if DelimAt(s, j) {
    } else if IsLineTerminator(s[j]) {
      forall k | j < k ensures !Closes(s, j, k) {
        assert j <= j < k;
      }
    } else {
      CloseFromNearest(s, j + 1);
      forall k | Closes(s, j, k) ensures Closes(s, j + 1, k) {
        assert k != j;
      }
    }
  }

  /** The regular expression matched at index `q`: returns the index of the closing `**`. */
  function MatchAt(s: string, q: nat): (r: Option<nat>)
    ensures r.Some? ==> DelimAt(s, q) && q + 2 <= r.value && DelimAt(s, r.value)
  {
    if DelimAt(s, q) then CloseFrom(s, q + 2) else None
  }

  /** No index of `s` starts a `**…**` pair, so split leaves `s` whole. */
  predicate NoPair(s: string) {
    forall q :: 0 <= q < |s| ==> MatchAt(s, q).None?
  }

  /**
   * The ECMAScript split loop from index `q`, with `p` the start of the pending
   * literal piece: at the leftmost index where the expression matches it emits
   * the literal before the match and the captured group, and resumes after it.
   */
  function SplitFrom(s: string, p: nat, q: nat): (parts: seq<string>)
    requires p <= q <= |s|
    decreases |s| - q
    ensures |parts| % 2 == 1
  {
    if q == |s| then [s[p..]]
    else match MatchAt(s, q)
      case Some(j) => [s[p..q], s[q + 2..j]] + SplitFrom(s, j + 2, j + 2)
      case None => SplitFrom(s, p, q + 1)
  }

  /** The split yields a single part exactly when no index from `q` on starts a pair. */
  lemma {:induction false} SplitFromWhole(s: string, p: nat, q: nat)
    requires p <= q <= |s|
    decreases |s| - q
    ensures |SplitFrom(s, p, q)| == 1 <==> forall r :: q <= r < |s| ==> MatchAt(s, r).None?
  {
    if q < |s| && MatchAt(s, q).None? {
      SplitFromWhole(s, p, q + 1);
    }
  }

  /** A captured group never holds a `**`: the lazy match stops at the first one. */
  lemma {:induction false} SplitFromGroups(s: string, p: nat, q: nat)
    requires p <= q <= |s|
    decreases |s| - q
    ensures forall i :: 0 <= i < |SplitFrom(s, p, q)| && i % 2 == 1 ==> NoDelim(SplitFrom(s, p, q)[i])
  {
    if q < |s| {
      match MatchAt(s, q)
      case Some(j) =>
        var group := s[q + 2..j];
        forall k: nat | k < |group| ensures !DelimAt(group, k) {
          if k + 2 <= |group| {
            assert !DelimAt(s, q + 2 + k);
          }
        }
        SplitFromGroups(s, j + 2, j + 2);
        var rest := SplitFrom(s, j + 2, j + 2);
        var parts := [s[p..q], group] + rest;
        assert SplitFrom(s, p, q) == parts;
        forall i | 2 <= i < |parts| ensures parts[i] == rest[i - 2] {}
      case None =>
        SplitFromGroups(s, p, q + 1);
    }
  }

  /** The leftmost index from `q` on where a `**…**` pair opens, if any. */
  function FirstMatch(s: string, q: nat): (r: Option<nat>)
    requires q <= |s|
    decreases |s| - q
    ensures r.Some? ==> q <= r.value < |s| && MatchAt(s, r.value).Some?
    ensures forall k :: q <= k < |s| && (r.None? || k < r.value) ==> MatchAt(s, k).None?
  {
    if q == |s| then None
    else if MatchAt(s, q).Some? then Some(q)
    else FirstMatch(s, q + 1)
  }

  /**
   * The split is leftmost-first: it keeps the text up to the leftmost index
   * where a pair opens as a literal, captures that pair's group, and goes on
   * after the pair; with no pair left, the rest is one literal.
   */
  lemma {:induction false} SplitFromLeftmost(s: string, p: nat, q: nat)
    requires p <= q <= |s|
    decreases |s| - q
    ensures SplitFrom(s, p, q) == match FirstMatch(s, q)
      case None => [s[p..]]
      case Some(m) =>
        var j := MatchAt(s, m).value;
        [s[p..m], s[m + 2..j]] + SplitFrom(s, j + 2, j + 2)
  {
    if q < |s| && MatchAt(s, q).None? {
      assert FirstMatch(s, q) == FirstMatch(s, q + 1);
      assert SplitFrom(s, p, q) == SplitFrom(s, p, q + 1);
      SplitFromLeftmost(s, p, q + 1);
    }
  }

  /** No `**` occurs in `s`. */
  predicate NoDelim(s: string) {
    forall k: nat | k < |s| :: !DelimAt(s, k)
  }

  /** The split of `s` on `**…**` pairs: literal, group, literal, …, literal. */
  function Split(s: string): (parts: seq<string>)
    ensures |parts| % 2 == 1
  {
    SplitFrom(s, 0, 0)
  }

  /** Puts the delimiters back around every captured (odd-indexed) part. */
  function Rejoin(parts: seq<string>): string {
    if |parts| <= 1 then (if parts == [] then "" else parts[0])
    else parts[0] + "**" + parts[1] + "**" + Rejoin(parts[2..])
  }

  lemma {:induction false} RejoinSplitFrom(s: string, p: nat, q: nat)
    requires p <= q <= |s|
    decreases |s| - q
    ensures Rejoin(SplitFrom(s, p, q)) == s[p..]
  {
    if q < |s| {
      match MatchAt(s, q)
      case Some(j) =>
        var rest := SplitFrom(s, j + 2, j + 2);
        RejoinSplitFrom(s, j + 2, j + 2);
        RejoinStep(s, p, q, j, rest);
      case None =>
        RejoinSplitFrom(s, p, q + 1);
    }
  }

  /** One matched pair in front of parts that rejoin to the rest of `s`. */
  lemma RejoinStep(s: string, p: nat, q: nat, j: nat, rest: seq<string>)
    requires p <= q && q + 2 <= j && DelimAt(s, q) && DelimAt(s, j)
    requires Rejoin(rest) == s[j + 2..]
    ensures Rejoin([s[p..q], s[q + 2..j]] + rest) == s[p..]
  {
    var a, b, c := s[p..q], s[q + 2..j], s[j + 2..];
    var parts := [a, b] + rest;
    assert parts[2..] == rest;
    assert Rejoin(parts) == a + "**" + b + "**" + c;
    assert s[p..] == a + s[q..q + 2] + b + s[j..j + 2] + c;
    assert s[q..q + 2] == "**";
    assert s[j..j + 2] == "**";
  }

  /** Splitting loses nothing but the delimiters of the matched pairs. */
  lemma RejoinSplit(s: string)
    ensures Rejoin(Split(s)) == s
  {
    RejoinSplitFrom(s, 0, 0);
  }

  /** Indexes where no delimiter starts are passed over without producing a part. */
  lemma {:induction false} SplitFromSkip(s: string, p: nat, q: nat, r: nat)
    requires p <= q <= r <= |s|
    requires forall k :: q <= k < r ==> s[k] != '*'
    decreases r - q
    ensures SplitFrom(s, p, q) == SplitFrom(s, p, r)
  {
    if q < r {
      assert !DelimAt(s, q);
      SplitFromSkip(s, p, q + 1, r);
    }
  }

  /** A `**` at `q` and the next one at `j`, with star-free text between that crosses no line end, match as a pair. */
  lemma PairAt(s: string, q: nat, j: nat)
    requires q + 2 <= j && DelimAt(s, q) && DelimAt(s, j)
    requires forall t :: q + 2 <= t < j ==> s[t] != '*' && !IsLineTerminator(s[t])
    ensures MatchAt(s, q) == Some(j)
  {
    assert Closes(s, q + 2, j);
    CloseFromNearest(s, q + 2);
  }

  /**
   * One pair around star-free text, between star-free literals, splits into
   * exactly those three parts.
   */
  lemma SplitOnePair(a: string, b: string, c: string)
    requires '*' !in a && '*' !in b && '*' !in c
    requires forall i :: 0 <= i < |b| ==> !IsLineTerminator(b[i])
    ensures Split(a + "**" + b + "**" + c) == [a, b, c]
  {
    var s := a + "**" + b + "**" + c;
    var q, j := |a|, |a| + 2 + |b|;
    assert s[..q] == a && s[q + 2..j] == b && s[j + 2..] == c;
    SplitFromSkip(s, 0, 0, q);
    forall t | q + 2 <= t < j ensures s[t] == b[t - q - 2] {}
    PairAt(s, q, j);
    SplitFromSkip(s, j + 2, j + 2, |s|);
  }

  /**
   * Two pairs at `q1`/`j1` and `q2`/`j2`, with no other `*` in the text and no
   * line end inside either pair, are both matched, in order: the split scans
   * from the left and resumes after each pair.
   */
  lemma SplitTwoPairs(s: string, q1: nat, j1: nat, q2: nat, j2: nat)
    requires q1 + 2 <= j1 && j1 + 2 <= q2 && q2 + 2 <= j2
    requires DelimAt(s, q1) && DelimAt(s, j1) && DelimAt(s, q2) && DelimAt(s, j2)
    requires forall t :: 0 <= t < q1 ==> s[t] != '*'
    requires forall t :: q1 + 2 <= t < j1 ==> s[t] != '*' && !IsLineTerminator(s[t])
    requires forall t :: j1 + 2 <= t < q2 ==> s[t] != '*'
    requires forall t :: q2 + 2 <= t < j2 ==> s[t] != '*' && !IsLineTerminator(s[t])
    requires forall t :: j2 + 2 <= t < |s| ==> s[t] != '*'
    ensures Split(s) == [s[..q1], s[q1 + 2..j1], s[j1 + 2..q2], s[q2 + 2..j2], s[j2 + 2..]]
  {
    SplitFromSkip(s, 0, 0, q1);
    PairAt(s, q1, j1);
    SplitFromSkip(s, j1 + 2, j1 + 2, q2);
    PairAt(s, q2, j2);
    SplitFromSkip(s, j2 + 2, j2 + 2, |s|);
  }

  // ---------------------------------------------------------------------------
  // formatInline
  // ---------------------------------------------------------------------------

  datatype Span = Literal(text: string) | Strong(text: string)

  /** The text itself when it holds no pair, otherwise alternating literal/strong spans. */
  datatype Inline = Verbatim(text: string) | Spans(spans: seq<Span>)

  function FormatInline(text: string): (r: Inline)
    ensures r.Verbatim? <==> NoPair(text)
    ensures r.Verbatim? ==> r.text == text
    ensures r.Spans? ==> |r.spans| >= 3 && |r.spans| % 2 == 1
    ensures r.Spans? ==> forall i :: 0 <= i < |r.spans| ==> (r.spans[i].Strong? <==> i % 2 == 1)
    ensures r.Spans? ==> forall i :: 0 <= i < |r.spans| && r.spans[i].Strong? ==> NoDelim(r.spans[i].text)
  {
    SplitFromWhole(text, 0, 0);
    SplitFromGroups(text, 0, 0);
    var parts := Split(text);
    if |parts| == 1 then Verbatim(text)
    else Spans(SpansOf(parts))
  }

  function SpansOf(parts: seq<string>): (spans: seq<Span>)
    ensures |spans| == |parts|
    ensures forall i :: 0 <= i < |parts| ==> spans[i].text == parts[i] && (spans[i].Strong? <==> i % 2 == 1)
  {
    seq(|parts|, i requires 0 <= i < |parts| => if i % 2 == 1 then Strong(parts[i]) else Literal(parts[i]))
  }

  /** The markup a span was read from. */
  function Markup(span: Span): string {
    match span
    case Literal(t) => t
    case Strong(t) => "**" + t + "**"
  }

  function MarkupAll(spans: seq<Span>): string {
    if spans == [] then "" else Markup(spans[0]) + MarkupAll(spans[1..])
  }

  /** The inverse of FormatInline: the source text of formatted inline content. */
  function Unformat(r: Inline): string {
    match r
    case Verbatim(t) => t
    case Spans(spans) => MarkupAll(spans)
  }

  lemma {:induction false} MarkupSpansOf(parts: seq<string>)
    requires |parts| % 2 == 1
    ensures MarkupAll(SpansOf(parts)) == Rejoin(parts)
  {
    if |parts| == 1 {
      assert SpansOf(parts) == [Literal(parts[0])];
    } else {
      var spans := SpansOf(parts);
      MarkupSpansOf(parts[2..]);
      assert spans[2..] == SpansOf(parts[2..]);
      assert spans[1..][1..] == spans[2..];
      assert MarkupAll(spans) == parts[0] + ("**" + parts[1] + "**") + MarkupAll(spans[2..]);
    }
  }

  /** Formatting is lossless: the spans, with their delimiters, spell the original text. */
  lemma FormatInlineRoundTrip(text: string)
    ensures Unformat(FormatInline(text)) == text
  {
    var parts := Split(text);
    RejoinSplit(text);
    if |parts| != 1 {
      MarkupSpansOf(parts);
    }
  }

  /**
   * The first pair formatted is the leftmost one: the leading literal runs up
   * to the leftmost index where a pair opens, and the first strong span is
   * that pair's group.
   */
  lemma FormatInlineLeftmost(text: string)
    requires FormatInline(text).Spans?
    ensures FirstMatch(text, 0).Some?
    ensures var m := FirstMatch(text, 0).value;
      var spans := FormatInline(text).spans;
      spans[0] == Literal(text[..m]) && spans[1] == Strong(text[m + 2..MatchAt(text, m).value])
  {
    SplitFromLeftmost(text, 0, 0);
  }

  /** `"**a** **b**"`: both pairs are matched, the leftmost first. */
  lemma TwoPairsExample()
    ensures FormatInline("**a** **b**")
      == Spans([Literal(""), Strong("a"), Literal(" "), Strong("b"), Literal("")])
  {
    var s := "**a** **b**";
    SplitTwoPairs(s, 0, 3, 6, 9);
    assert s[..0] == "" && s[2..3] == "a" && s[5..6] == " " && s[8..9] == "b" && s[11..] == "";
    var parts := ["", "a", " ", "b", ""];
    assert Split(s) == parts;
    assert SpansOf(parts) == [Literal(""), Strong("a"), Literal(" "), Strong("b"), Literal("")];
  }

  /** A lone `**` among star-free text opens no pair, so the text comes back unchanged. */
  lemma UnpairedStaysLiteral(a: string, b: string)
    requires '*' !in a && '*' !in b
    ensures FormatInline(a + "**" + b) == Verbatim(a + "**" + b)
  {
    var s := a + "**" + b;
    forall q | 0 <= q < |s| ensures MatchAt(s, q).None? {
      if DelimAt(s, q) {
        assert q == |a|;
        CloseFromNearest(s, q + 2);
        forall k: nat | q + 2 <= k < |s| ensures !DelimAt(s, k) {
          assert s[k] == b[k - |a| - 2];
        }
      }
    }
  }

  /** Formatting one such pair gives a literal, a strong span and a literal. */
  lemma FormatOnePair(a: string, b: string, c: string)
    requires '*' !in a && '*' !in b && '*' !in c
    requires forall i :: 0 <= i < |b| ==> !IsLineTerminator(b[i])
    ensures FormatInline(a + "**" + b + "**" + c) == Spans([Literal(a), Strong(b), Literal(c)])
  {
    SplitOnePair(a, b, c);
    assert SpansOf([a, b, c]) == [Literal(a), Strong(b), Literal(c)];
  }

  /** "Score **10** points" becomes literal, strong, literal. */
  lemma EmphasisExample()
    ensures FormatInline("Score **10** points")
         == Spans([Literal("Score "), Strong("10"), Literal(" points")])
  {
    assert "Score **10** points" == "Score " + "**" + "10" + "**" + " points";
    FormatOnePair("Score ", "10", " points");
  }

  // ---------------------------------------------------------------------------
  // renderMarkdown
  // ---------------------------------------------------------------------------

  datatype Block =
    | Heading(level: nat, text: string)
    | Unordered(content: Inline)
    | Ordered(content: Inline)
    | Spacer
    | Paragraph(content: Inline)

  /** Number of consecutive digits of `s` from index `i`. */
  function DigitRun(s: string, i: nat): (n: nat)
    requires i <= |s|
    decreases |s| - i
    ensures i + n <= |s|
    ensures forall k :: i <= k < i + n ==> IsDigit(s[k])
    ensures i + n == |s| || !IsDigit(s[i + n])
  {
    if i < |s| && IsDigit(s[i]) then 1 + DigitRun(s, i + 1) else 0
  }

  /** Reference definition of `/^\d+\.\s/` matching the first `n` characters of `line`. */
  predicate OrderedMarker(line: string, n: nat) {
    3 <= n <= |line|
    && (forall k :: 0 <= k < n - 2 ==> IsDigit(line[k]))
    && line[n - 2] == '.' && IsWhitespace(line[n - 1])
  }

  /** The length of the `/^\d+\.\s/` match at the start of `line`, if it matches. */
  function OrderedPrefix(line: string): (r: Option<nat>)
    ensures r.Some? ==> OrderedMarker(line, r.value)
  {
    var k := DigitRun(line, 0);
    if 1 <= k && k + 2 <= |line| && line[k] == '.' && IsWhitespace(line[k + 1]) then Some(k + 2)
    else None
  }

  /** The marker, when present, has exactly one length: the greedy `\d+` cannot backtrack. */
  lemma OrderedPrefixComplete(line: string, n: nat)
    requires OrderedMarker(line, n)
    ensures OrderedPrefix(line) == Some(n)
  {
  }

  /** `!line.trim()`: the line holds whitespace only (or nothing). */
  predicate IsBlank(line: string) {
    forall i :: 0 <= i < |line| ==> IsWhitespace(line[i])
  }

  /** `^\d+\.\s` matches a prefix of `line` exactly when `OrderedPrefix` finds one. */
  lemma OrderedMarkerFound(line: string)
    ensures (exists n :: OrderedMarker(line, n)) <==> OrderedPrefix(line).Some?
  {
    if exists n :: OrderedMarker(line, n) {
      var n :| OrderedMarker(line, n);
      OrderedPrefixComplete(line, n);
    }
  }

  /** Every marker fixes the first character of the line, and no two markers share one. */
  lemma MarkersByFirstChar(line: string)
    ensures StartsWith(line, "### ") || StartsWith(line, "## ") || StartsWith(line, "# ") ==> line[0] == '#'
    ensures StartsWith(line, "- ") || StartsWith(line, "* ") ==> line[0] == '-' || line[0] == '*'
    ensures OrderedPrefix(line).Some? ==> IsDigit(line[0])
    ensures IsBlank(line) && |line| > 0 ==> IsWhitespace(line[0])
  {
  }

  /**
   * The block one line of an explanation becomes, testing the forms in source
   * order. The forms are told apart by their first characters, so each kind
   * holds exactly when its own marker is present, whatever the test order.
   */
  function Classify(line: string): (b: Block)
    ensures b.Heading? <==> StartsWith(line, "# ") || StartsWith(line, "## ") || StartsWith(line, "### ")
    ensures b.Unordered? <==> StartsWith(line, "- ") || StartsWith(line, "* ")
    ensures b.Ordered? <==> exists n :: OrderedMarker(line, n)
    ensures b.Spacer? <==> IsBlank(line)
  {
    OrderedMarkerFound(line);
    MarkersByFirstChar(line);
    if StartsWith(line, "### ") then Heading(3, line[4..])
    else if StartsWith(line, "## ") then Heading(2, line[3..])
    else if StartsWith(line, "# ") then Heading(1, line[2..])
    else if StartsWith(line, "- ") || StartsWith(line, "* ") then Unordered(FormatInline(line[2..]))
    else match OrderedPrefix(line)
      case Some(n) => Ordered(FormatInline(line[n..]))
      case None => if IsBlank(line) then Spacer else Paragraph(FormatInline(line))
  }

  function HeadingMarker(level: nat): string {
    if level == 3 then "### " else if level == 2 then "## " else "# "
  }

  /**
   * Every block keeps its line's text: the heading text after its marker; list
   * items and paragraphs hold the inline formatting of the rest of the line,
   * which gives that text back when undone.
   */
  lemma ClassifyKeepsText(line: string)
    ensures match Classify(line)
      case Heading(level, text) => 1 <= level <= 3 && line == HeadingMarker(level) + text
      case Unordered(content) =>
        && (StartsWith(line, "- ") || StartsWith(line, "* "))
        && content == FormatInline(line[2..]) && Unformat(content) == line[2..]
      case Ordered(content) =>
        && OrderedPrefix(line).Some?
        && content == FormatInline(line[OrderedPrefix(line).value..])
        && Unformat(content) == line[OrderedPrefix(line).value..]
      case Spacer => IsBlank(line)
      case Paragraph(content) => content == FormatInline(line) && Unformat(content) == line
  {
    match Classify(line)
    case Heading(level, text) =>
      assert line == line[..|HeadingMarker(level)|] + line[|HeadingMarker(level)|..];
    case Unordered(content) => FormatInlineRoundTrip(line[2..]);
    case Ordered(content) => FormatInlineRoundTrip(line[OrderedPrefix(line).value..]);
    case Spacer =>
    case Paragraph(content) => FormatInlineRoundTrip(line);
  }

  /** `renderMarkdown`: nothing for the empty string, else one block per line. */
  function RenderMarkdown(text: string): (r: Option<seq<Block>>)
    ensures r.None? <==> text == ""
    ensures r.Some? ==> |r.value| == NewlineCount(text) + 1
  {
    if text == "" then None
    else
      var lines := SplitLines(text);
      Some(seq(|lines|, i requires 0 <= i < |lines| => Classify(lines[i])))
  }

  /** The blocks follow the lines of the text in order, and those lines rebuild the text. */
  lemma RenderMarkdownLines(text: string)
    requires text != ""
    ensures var lines := SplitLines(text);
      && JoinLines(lines) == text
      && forall i :: 0 <= i < |lines| ==> RenderMarkdown(text).value[i] == Classify(lines[i])
  {
    JoinSplitLines(text);
  }

  /** A single line with no block marker and no pair renders as one paragraph holding it verbatim. */
  lemma PlainTextIsOneParagraph(text: string)
    requires '\n' !in text && !IsBlank(text) && NoPair(text)
    requires !StartsWith(text, "# ") && !StartsWith(text, "## ") && !StartsWith(text, "### ")
    requires !StartsWith(text, "- ") && !StartsWith(text, "* ")
    requires forall n :: !OrderedMarker(text, n)
    ensures RenderMarkdown(text) == Some([Paragraph(Verbatim(text))])
  {
    SplitLinesNoNewline(text);
    assert FormatInline(text) == Verbatim(text);
    assert Classify(text) == Paragraph(Verbatim(text));
    var blocks := RenderMarkdown(text).value;
    assert |blocks| == 1 && blocks[0] == Classify(text);
    assert blocks == [Paragraph(Verbatim(text))];
  }

  /** A line that starts with a number but has no `.` after it is an ordinary paragraph. */
  lemma NumberLedParagraph()
    ensures RenderMarkdown("42 is the answer") == Some([Paragraph(Verbatim("42 is the answer"))])
  {
    var text := "42 is the answer";
    assert '.' !in text && '*' !in text && text[0] == '4';
    assert !IsWhitespace(text[0]);
    PlainTextIsOneParagraph(text);
  }

  /** Text without a newline renders as the single block of its one line. */
  lemma RenderOneLine(text: string)
    requires text != "" && '\n' !in text
    ensures RenderMarkdown(text) == Some([Classify(text)])
  {
    SplitLinesNoNewline(text);
    var blocks := RenderMarkdown(text).value;
    assert |blocks| == 1 && blocks[0] == Classify(text);
    assert blocks == [Classify(text)];
  }

  /** A line whose first character begins no marker is a paragraph of its formatted text. */
  lemma ParagraphByFirstChar(line: string)
    requires |line| > 0 && line[0] != '#' && line[0] != '-' && line[0] != '*'
    requires !IsDigit(line[0]) && !IsWhitespace(line[0])
    ensures Classify(line) == Paragraph(FormatInline(line))
  {
    MarkersByFirstChar(line);
    OrderedMarkerFound(line);
    ClassifyKeepsText(line);
  }

  /** A line of that kind, alone in the text, renders as one paragraph of its formatted text. */
  lemma OneLineParagraph(text: string, content: Inline)
    requires '\n' !in text && |text| > 0
    requires text[0] != '#' && text[0] != '-' && text[0] != '*'
    requires !IsDigit(text[0]) && !IsWhitespace(text[0])
    requires FormatInline(text) == content
    ensures RenderMarkdown(text) == Some([Paragraph(content)])
  {
    RenderOneLine(text);
    ParagraphByFirstChar(text);
  }

  /** A plain line holding one pair renders as one paragraph of literal, strong, literal. */
  lemma EmphasisParagraph()
    ensures RenderMarkdown("Score **10** points")
      == Some([Paragraph(Spans([Literal("Score "), Strong("10"), Literal(" points")]))])
  {
    var text := "Score **10** points";
    assert '\n' !in text && text[0] == 'S';
    EmphasisExample();
    OneLineParagraph(text, Spans([Literal("Score "), Strong("10"), Literal(" points")]));
  }
}
