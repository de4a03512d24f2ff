/**
  The tokenizer `ParseCode`: splits text into lines at `\n` or `\r\n`, and each
  line into tokens, where a token is either a quoted literal `C"…"` / `X"…"`
  running to the last quote of the line, or a run of non-white-space
  characters. Lines without tokens are dropped. `TextToCommandDtos` reads an
  instruction table written as three tokens per line.
*/
module Parser {
  import opened Errors
  import opened Text
  import opened Structure

  // ---------------------------------------------------------------------------
  // Lines: `Regex.Split(input, "\r?\n")`

  /** The pieces of `s` between `\n` characters, in order (one more than there are `\n`). */
  function SplitAtNewlines(s: string): (r: seq<string>)
    ensures |r| >= 1
    ensures forall k | 0 <= k < |r| :: '\n' !in r[k]
  {
    if |s| == 0 then [[]]
    else
      var rest := SplitAtNewlines(s[1..]);
      if s[0] == '\n' then [[]] + rest else [[s[0]] + rest[0]] + rest[1..]
  }

  /** The lines joined with `sep` between each two. */
  function JoinWith(lines: seq<string>, sep: string): string
    requires |lines| >= 1
  {
    if |lines| == 1 then lines[0] else lines[0] + sep + JoinWith(lines[1..], sep)
  }

  /** A piece that was followed by `\r\n` loses its `\r`. */
  function SplitLines(s: string): (r: seq<string>)
  {
    var raw := SplitAtNewlines(s);
    seq(|raw|, k requires 0 <= k < |raw| =>
      if k < |raw| - 1 && |raw[k]| > 0 && raw[k][|raw[k]| - 1] == '\r'
      then raw[k][..|raw[k]| - 1] else raw[k])
  }

  // ---------------------------------------------------------------------------
  // Tokens: the matches of `((?:[CX])"[^"]*(?:"[^"]*)*"|\S+)` in a line

  /** Index of the last `"` of the line, or -1. */
  function LastQuote(line: string): (q: int)
    ensures -1 <= q < |line|
    ensures q >= 0 ==> line[q] == '"'
    ensures forall k | q < k < |line| :: line[k] != '"'
  {
    if |line| == 0 then -1
    else if line[|line| - 1] == '"' then |line| - 1
    else LastQuote(line[..|line| - 1])
  }

  /** End of the run of non-white-space characters that starts at `p`. */
  function RunEnd(line: string, p: nat): (e: nat)
    requires p <= |line|
    ensures p <= e <= |line|
    ensures forall k | p <= k < e :: !IsWhiteSpace(line[k])
    ensures e < |line| ==> IsWhiteSpace(line[e])
    decreases |line| - p
  {
    if p == |line| || IsWhiteSpace(line[p]) then p else RunEnd(line, p + 1)
  }

  /** An upper-case `C"` or `X"` at `p` with a closing quote further on: the first alternative matches. */
  predicate StartsLiteral(line: string, p: nat) {
    p + 1 < |line| && (line[p] == 'C' || line[p] == 'X') && line[p + 1] == '"' && LastQuote(line) > p + 1
  }

  /** A token as the scanner returns it: not empty and not starting or ending with white space. */
  predicate IsToken(t: string) {
    |t| > 0 && !IsWhiteSpace(t[0]) && !IsWhiteSpace(t[|t| - 1])
  }

  predicate NoWhiteSpace(t: string) {
    forall k | 0 <= k < |t| :: !IsWhiteSpace(t[k])
  }

  /** The first position at or after `p` that is not white space, or the end of the line. */
  function SkipWhite(line: string, p: nat): (q: nat)
    requires p <= |line|
    ensures p <= q <= |line|
    ensures forall k | p <= k < q :: IsWhiteSpace(line[k])
    ensures q < |line| ==> !IsWhiteSpace(line[q])
    decreases |line| - p
  {
    if p == |line| || !IsWhiteSpace(line[p]) then p else SkipWhite(line, p + 1)
  }

  /** Where the match starting at `p` ends: just past the line's last quote for a literal, else at the end of the run. */
  function TokenEnd(line: string, p: nat): (e: nat)
    requires p < |line| && !IsWhiteSpace(line[p])
    ensures p < e <= |line|
  {
    if StartsLiteral(line, p) then LastQuote(line) + 1 else RunEnd(line, p)
  }

  /** The tokens of `line[p..]`, left to right, as successive regular-expression matches (see `ScanTokens`). */
  function Scan(line: string, p: nat): (ts: seq<string>)
    requires p <= |line|
    ensures forall j | 0 <= j < |ts| :: IsToken(ts[j])
    ensures forall j | 0 <= j < |ts| :: NoWhiteSpace(ts[j]) ||
              (ts[j][0] in "CX" && ts[j][1] == '"' && ts[j][|ts[j]| - 1] == '"')
    decreases |line| - p
  {
    if p == |line| then []
    else if IsWhiteSpace(line[p]) then Scan(line, p + 1)
    else if StartsLiteral(line, p) then
      var q := LastQuote(line);
      [line[p..q + 1]] + Scan(line, q + 1)
    else
      var e := RunEnd(line, p);
      [line[p..e]] + Scan(line, e)
  }

  function Tokenize(line: string): seq<string> {
    Scan(line, 0)
  }

  /** The token lists of the lines, dropping the lines that have no token. */
  function NonEmptyTokenLines(lines: seq<string>): (r: seq<seq<string>>)
    ensures forall k | 0 <= k < |r| :: |r[k]| > 0
  {
    if |lines| == 0 then []
    else
      var ts := Tokenize(lines[|lines| - 1]);
      NonEmptyTokenLines(lines[..|lines| - 1]) + (if |ts| == 0 then [] else [ts])
  }

  function ParseCodeSpec(input: string): seq<seq<string>> {
    NonEmptyTokenLines(SplitLines(input))
  }

  /**
    `ParseCode`. The regular-expression matches are never blank and never carry
    surrounding white space (`Scan`'s contract), so the C# code's `Trim()` and its
    blank-token filter leave them as they are.
  */
  method ParseCode(input: string) returns (result: seq<seq<string>>)
    ensures result == ParseCodeSpec(input)
    ensures forall k | 0 <= k < |result| :: |result[k]| > 0 &&
              forall j | 0 <= j < |result[k]| :: IsToken(result[k][j])
  {
    var lines := SplitLines(input);
    result := [];
    for i := 0 to |lines|
      invariant result == NonEmptyTokenLines(lines[..i])
    {
      var words := Tokenize(lines[i]);
      NonEmptyStep(lines, i);
      if |words| != 0 {
        result := result + [words];
      }
    }
    assert lines[..|lines|] == lines;
    TokenLinesWellFormed(lines);
  }

  /** One more line adds its token list, unless it has none. */
  lemma NonEmptyStep(lines: seq<string>, i: nat)
    requires i < |lines|
    ensures var ts := Tokenize(lines[i]);
            NonEmptyTokenLines(lines[..i + 1]) == NonEmptyTokenLines(lines[..i]) + (if |ts| == 0 then [] else [ts])
  {
    assert lines[..i + 1][..i] == lines[..i];
  }

  lemma {:induction false} TokenLinesWellFormed(lines: seq<string>)
    ensures forall k | 0 <= k < |NonEmptyTokenLines(lines)| ::
              forall j | 0 <= j < |NonEmptyTokenLines(lines)[k]| :: IsToken(NonEmptyTokenLines(lines)[k][j])
  {
    if |lines| > 0 {
      TokenLinesWellFormed(lines[..|lines| - 1]);
    }
  }

  /**
    `TextToCommandDtos`: fails unless every non-empty line has exactly three
    tokens; otherwise one DTO per line, holding its tokens in order.
  */
  function TextToCommandDtos(text: string): (r: Result<seq<CommandDto>>)
    ensures r.Ok? <==> forall k | 0 <= k < |ParseCodeSpec(text)| :: |ParseCodeSpec(text)[k]| == 3
    ensures r.Err? ==> r.error == BadLineFormat
    ensures r.Ok? ==> |r.value| == |ParseCodeSpec(text)|
    ensures r.Ok? ==> forall k | 0 <= k < |r.value| ::
              [r.value[k].name, r.value[k].code, r.value[k].length] == ParseCodeSpec(text)[k]
  {
    var lines := ParseCodeSpec(text);
    if exists k | 0 <= k < |lines| :: |lines[k]| != 3 then Err(BadLineFormat)
    else Ok(seq(|lines|, k requires 0 <= k < |lines| => CommandDto(lines[k][0], lines[k][1], lines[k][2])))
  }

  // ---------------------------------------------------------------------------
  // Properties of the tokenizer

  /** Splitting at `\n` and joining with `\n` gives the text back. */
  lemma {:induction false} SplitJoinRoundTrip(s: string)
    ensures JoinWith(SplitAtNewlines(s), "\n") == s
  {
    if |s| > 0 {
      SplitJoinRoundTrip(s[1..]);
      var rest := SplitAtNewlines(s[1..]);
      if s[0] != '\n' {
        if |rest| > 1 {
          assert JoinWith([[s[0]] + rest[0]] + rest[1..], "\n") == [s[0]] + rest[0] + "\n" + JoinWith(rest[1..], "\n");
        }
      }
    }
  }

  /**
    There is one more line than there are line feeds, no line contains a line
    feed, and text without `\r` is split exactly at its line feeds.
  */
  lemma SplitLinesSeparators(s: string)
    ensures |SplitLines(s)| == multiset(s)['\n'] + 1
    ensures forall k | 0 <= k < |SplitLines(s)| :: '\n' !in SplitLines(s)[k]
    ensures '\r' !in s ==> SplitLines(s) == SplitAtNewlines(s) && JoinWith(SplitLines(s), "\n") == s
  {
    NewlineCount(s);
    if '\r' !in s {
      NoCarriageReturnInPieces(s);
      SplitJoinRoundTrip(s);
    }
  }

  lemma {:induction false} NewlineCount(s: string)
    ensures |SplitAtNewlines(s)| == multiset(s)['\n'] + 1
  {
    if |s| > 0 {
      NewlineCount(s[1..]);
      assert s == [s[0]] + s[1..];
    }
  }

  /** A piece without line feed followed by `\n` is split off as it is. */
  lemma {:induction false} SplitBefore(a: string, b: string)
    requires '\n' !in a
    ensures SplitAtNewlines(a + "\n" + b) == [a] + SplitAtNewlines(b)
  {
    var t := a + "\n" + b;
    if |a| == 0 {
      assert t[1..] == b;
    } else {
      assert t[1..] == a[1..] + "\n" + b;
      SplitBefore(a[1..], b);
      assert [a[0]] + a[1..] == a;
    }
  }

  lemma {:induction false} SplitWhole(a: string)
    requires '\n' !in a
    ensures SplitAtNewlines(a) == [a]
  {
    if |a| > 0 {
      SplitWhole(a[1..]);
      assert [a[0]] + a[1..] == a;
    }
  }

  /** Lines joined with `\r\n` split, before the `\r` is dropped, into the lines with a `\r` on all but the last. */
  lemma {:induction false} CrLfPieces(lines: seq<string>)
    requires |lines| >= 1
    requires forall k | 0 <= k < |lines| :: '\n' !in lines[k] && '\r' !in lines[k]
    ensures var raw := SplitAtNewlines(JoinWith(lines, "\r\n"));
            |raw| == |lines| && raw[|lines| - 1] == lines[|lines| - 1] &&
            forall k | 0 <= k < |lines| - 1 :: raw[k] == lines[k] + "\r"
  {
    if |lines| == 1 {
      SplitWhole(lines[0]);
    } else {
      var rest := lines[1..];
      CrLfPieces(rest);
      assert JoinWith(lines, "\r\n") == (lines[0] + "\r") + "\n" + JoinWith(rest, "\r\n");
      SplitBefore(lines[0] + "\r", JoinWith(rest, "\r\n"));
    }
  }

  /** Text written with `\r\n` line ends splits back into its lines. */
  lemma CrLfLines(lines: seq<string>)
    requires |lines| >= 1
    requires forall k | 0 <= k < |lines| :: '\n' !in lines[k] && '\r' !in lines[k]
    ensures SplitLines(JoinWith(lines, "\r\n")) == lines
  {
    var r := SplitLines(JoinWith(lines, "\r\n"));
    CrLfPieces(lines);
    forall k | 0 <= k < |lines| ensures r[k] == lines[k] {
      CrLfLine(lines, k);
    }
  }

  lemma CrLfLine(lines: seq<string>, k: nat)
    requires k < |lines|
    requires forall k | 0 <= k < |lines| :: '\n' !in lines[k] && '\r' !in lines[k]
    ensures |SplitLines(JoinWith(lines, "\r\n"))| == |lines|
    ensures SplitLines(JoinWith(lines, "\r\n"))[k] == lines[k]
  {
    CrLfPieces(lines);
    var raw := SplitAtNewlines(JoinWith(lines, "\r\n"));
    if k < |lines| - 1 {
      assert raw[k] == lines[k] + "\r";
      assert raw[k][..|raw[k]| - 1] == lines[k];
    }
  }

  lemma {:induction false} NoCarriageReturnInPieces(s: string)
    requires '\r' !in s
    ensures forall k | 0 <= k < |SplitAtNewlines(s)| :: '\r' !in SplitAtNewlines(s)[k]
  {
    if |s| > 0 {
      assert forall c | c in s[1..] :: c in s;
      NoCarriageReturnInPieces(s[1..]);
    }
  }

  /** `line` with its white space removed. */
  function Compact(s: string): string {
    if |s| == 0 then [] else (if IsWhiteSpace(s[0]) then [] else [s[0]]) + Compact(s[1..])
  }

  function Concat(ts: seq<string>): string {
    if |ts| == 0 then [] else ts[0] + Concat(ts[1..])
  }

  lemma {:induction false} CompactAppend(a: string, b: string)
    ensures Compact(a + b) == Compact(a) + Compact(b)
  {
    if |a| > 0 {
      assert (a + b)[1..] == a[1..] + b;
      CompactAppend(a[1..], b);
    } else {
      assert a + b == b;
    }
  }

  lemma {:induction false} CompactConcat(ts: seq<string>, t: string)
    ensures Compact(Concat([t] + ts)) == Compact(t) + Compact(Concat(ts))
  {
    assert ([t] + ts)[1..] == ts;
    CompactAppend(t, Concat(ts));
  }

  /** One token step: the token `line[p..e]` followed by the tokens of `line[e..]`. */
  lemma TokenStep(line: string, p: nat, e: nat, rest: seq<string>)
    requires p <= e <= |line|
    requires Compact(Concat(rest)) == Compact(line[e..])
    ensures Compact(Concat([line[p..e]] + rest)) == Compact(line[p..])
  {
    CompactConcat(rest, line[p..e]);
    assert line[p..] == line[p..e] + line[e..];
    CompactAppend(line[p..e], line[e..]);
  }

  /**
    The tokenizer keeps every non-white-space character of the line, in order,
    and nothing else: white space is lost only between tokens (it stays inside
    a quoted literal).
  */
  lemma {:induction false} ScanKeepsContent(line: string, p: nat)
    requires p <= |line|
    ensures Compact(Concat(Scan(line, p))) == Compact(line[p..])
    decreases |line| - p
  {
    if p == |line| {
    } else if IsWhiteSpace(line[p]) {
      ScanKeepsContent(line, p + 1);
      TokenStep(line, p, p + 1, Scan(line, p + 1));
      assert Compact(line[p..p + 1]) == [];
      CompactConcat(Scan(line, p + 1), line[p..p + 1]);
    } else if StartsLiteral(line, p) {
      var q := LastQuote(line);
      ScanKeepsContent(line, q + 1);
      TokenStep(line, p, q + 1, Scan(line, q + 1));
    } else {
      var e := RunEnd(line, p);
      ScanKeepsContent(line, e);
      TokenStep(line, p, e, Scan(line, e));
    }
  }

  /**
    What the matches are: past any white space, the first token is a literal
    running to the last quote of the line, or else a maximal run of
    non-white-space; the remaining tokens are those of the rest of the line.
    No tokens at all exactly when only white space is left.
  */
  lemma {:induction false} ScanTokens(line: string, p: nat)
    requires p <= |line|
    ensures Scan(line, p) == [] <==> SkipWhite(line, p) == |line|
    ensures SkipWhite(line, p) < |line| ==>
              var q := SkipWhite(line, p);
              var ts := Scan(line, p);
              |ts| > 0 && ts[0] == line[q..TokenEnd(line, q)] && ts[1..] == Scan(line, TokenEnd(line, q))
    decreases |line| - p
  {
    if p < |line| && IsWhiteSpace(line[p]) {
      ScanTokens(line, p + 1);
    }
  }

  /** A line yields no token exactly when it is blank. */
  lemma {:induction false} ScanEmpty(line: string, p: nat)
    requires p <= |line|
    ensures Scan(line, p) == [] <==> forall k | p <= k < |line| :: IsWhiteSpace(line[k])
    decreases |line| - p
  {
    if p < |line| && IsWhiteSpace(line[p]) {
      ScanEmpty(line, p + 1);
    }
  }

  lemma TokenizeKeepsContent(line: string)
    ensures Compact(Concat(Tokenize(line))) == Compact(line)
    ensures Tokenize(line) == [] <==> forall k | 0 <= k < |line| :: IsWhiteSpace(line[k])
  {
    ScanKeepsContent(line, 0);
    assert line[0..] == line;
    ScanEmpty(line, 0);
  }

  // ---------------------------------------------------------------------------
  // Re-joining the tokens with single spaces and tokenizing again

  /** The tokens written back as one line, a single space between each two. */
  function Rejoin(ts: seq<string>): string {
    if |ts| == 0 then "" else JoinWith(ts, " ")
  }

  /**
    Tokenizing is stable under re-joining: the tokens of a line, written back
    with single spaces, tokenize to the same tokens.
  */
  lemma TokenizeJoinStable(line: string)
    ensures Tokenize(Rejoin(Tokenize(line))) == Tokenize(line)
  {
    if Tokenize(line) != [] {
      RejoinScan(line, 0);
    }
  }

  lemma {:induction false} RejoinScan(line: string, p: nat)
    requires p <= |line| && Scan(line, p) != []
    ensures Scan(JoinWith(Scan(line, p), " "), 0) == Scan(line, p)
    decreases |line| - p
  {
    if IsWhiteSpace(line[p]) {
      RejoinScan(line, p + 1);
    } else {
      var e := TokenEnd(line, p);
      var t := line[p..e];
      var rest := Scan(line, e);
      ScanAt(line, p);
      var S := if rest == [] then "" else " " + JoinWith(rest, " ");
      if rest != [] {
        RejoinScan(line, e);
        assert JoinWith([t] + rest, " ") == t + S;
      } else {
        assert JoinWith([t] + rest, " ") == t + S;
      }
      RestQuotes(line, e, S);
      HeadToken(line, p, S);
      ScanAt(t + S, 0);
      assert (t + S)[0..|t|] == t;
      if rest != [] {
        assert (t + S)[|t|] == ' ';
        assert t + S == (t + " ") + JoinWith(rest, " ");
        ScanShift(t + " ", JoinWith(rest, " "), 0);
      }
    }
  }

  /** A line past a non-white position: its first token, then the tokens after it. */
  lemma ScanAt(line: string, p: nat)
    requires p < |line| && !IsWhiteSpace(line[p])
    ensures Scan(line, p) == [line[p..TokenEnd(line, p)]] + Scan(line, TokenEnd(line, p))
  {
    ScanTokens(line, p);
  }

  /** A quote at `k` bounds the last quote from below. */
  lemma QuoteBound(s: string, k: nat)
    requires k < |s| && s[k] == '"'
    ensures LastQuote(s) >= k
  {
  }

  /** The last quote is where the quote with none after it is. */
  lemma LastQuoteIs(s: string, q: nat)
    requires q < |s| && s[q] == '"' && forall k | q < k < |s| :: s[k] != '"'
    ensures LastQuote(s) == q
  {
    QuoteBound(s, q);
  }

  lemma {:induction false} RunEndAt(s: string, p: nat, e: nat)
    requires p <= e <= |s| && (e == |s| || IsWhiteSpace(s[e]))
    requires forall k | p <= k < e :: !IsWhiteSpace(s[k])
    ensures RunEnd(s, p) == e
    decreases e - p
  {
    if p < e {
      RunEndAt(s, p + 1, e);
    }
  }

  /** What comes before does not change where a literal starts or a run ends. */
  lemma LiteralShift(a: string, b: string, k: nat)
    requires k < |b| && !IsWhiteSpace(b[k])
    ensures StartsLiteral(a + b, |a| + k) == StartsLiteral(b, k)
    ensures RunEnd(a + b, |a| + k) == |a| + RunEnd(b, k)
  {
    var ab := a + b;
    if '"' in b {
      LastQuoteIs(ab, |a| + LastQuote(b));
    }
    var e := RunEnd(b, k);
    RunEndAt(ab, |a| + k, |a| + e);
  }

  lemma TokenEndShift(a: string, b: string, k: nat)
    requires k < |b| && !IsWhiteSpace(b[k])
    ensures (a + b)[|a| + k] == b[k]
    ensures TokenEnd(a + b, |a| + k) == |a| + TokenEnd(b, k)
    ensures (a + b)[|a| + k..|a| + TokenEnd(b, k)] == b[k..TokenEnd(b, k)]
  {
    LiteralShift(a, b, k);
    if StartsLiteral(b, k) {
      LastQuoteIs(a + b, |a| + LastQuote(b));
    }
  }

  lemma {:induction false} ScanShift(a: string, b: string, k: nat)
    requires k <= |b|
    ensures Scan(a + b, |a| + k) == Scan(b, k)
    decreases |b| - k
  {
    if k < |b| {
      assert (a + b)[|a| + k] == b[k];
      if IsWhiteSpace(b[k]) {
        ScanShift(a, b, k + 1);
      } else {
        TokenEndShift(a, b, k);
        ScanAt(a + b, |a| + k);
        ScanAt(b, k);
        ScanShift(a, b, TokenEnd(b, k));
      }
    }
  }

  /** The tokens after position `e`, re-joined, hold a quote exactly when the line does after `e`. */
  lemma RestQuotes(line: string, e: nat, S: string)
    requires e <= |line|
    requires S == if Scan(line, e) == [] then "" else " " + JoinWith(Scan(line, e), " ")
    ensures ('"' in S) <==> ('"' in line[e..])
  {
    var rest := Scan(line, e);
    if rest == [] {
      ScanEmpty(line, e);
      assert '"' !in line[e..];
    } else {
      ScanKeepsContent(line, e);
      JoinCompact(rest);
      CompactHasQuote(JoinWith(rest, " "));
      CompactHasQuote(line[e..]);
      CompactHasQuote(Concat(rest));
      assert ('"' in S) <==> ('"' in JoinWith(rest, " "));
    }
  }

  lemma {:induction false} CompactHasQuote(s: string)
    ensures ('"' in Compact(s)) <==> ('"' in s)
  {
    if |s| > 0 {
      CompactHasQuote(s[1..]);
      assert s == [s[0]] + s[1..];
    }
  }

  lemma {:induction false} JoinCompact(ts: seq<string>)
    requires |ts| >= 1
    ensures Compact(JoinWith(ts, " ")) == Compact(Concat(ts))
  {
    assert Concat(ts) == ts[0] + Concat(ts[1..]);
    if |ts| == 1 {
      assert Concat(ts[1..]) == [];
      assert ts[0] + [] == ts[0];
    } else {
      JoinCompact(ts[1..]);
      CompactAppend(ts[0] + " ", JoinWith(ts[1..], " "));
      CompactAppend(ts[0], " ");
      CompactAppend(ts[0], Concat(ts[1..]));
      assert Compact(" ") == [];
    }
  }

  /**
    The token at `p`, followed by either nothing or a space and text that
    holds a quote exactly when the line does after the token, is read as
    the same token again.
  */
  lemma HeadToken(line: string, p: nat, S: string)
    requires p < |line| && !IsWhiteSpace(line[p])
    requires S == "" || S[0] == ' '
    requires ('"' in S) <==> ('"' in line[TokenEnd(line, p)..])
    ensures var t := line[p..TokenEnd(line, p)];
            !IsWhiteSpace((t + S)[0]) && TokenEnd(t + S, 0) == |t|
  {
    var e := TokenEnd(line, p);
    var t := line[p..e];
    var J := t + S;
    if StartsLiteral(line, p) {
      var q := LastQuote(line);
      assert '"' !in line[e..];
      assert '"' !in S;
      forall k | |t| - 1 < k < |J| ensures J[k] != '"' {
        assert J[k] == S[k - |t|];
      }
      LastQuoteIs(J, |t| - 1);
    } else {
      LiteralHeadLifts(line, p, S);
      RunEndAt(J, 0, |t|);
    }
  }

  /** If the re-joined token opens a literal, the token opened one in the line too. */
  lemma LiteralHeadLifts(line: string, p: nat, S: string)
    requires p < |line| && !IsWhiteSpace(line[p])
    requires S == "" || S[0] == ' '
    requires ('"' in S) <==> ('"' in line[TokenEnd(line, p)..])
    ensures var t := line[p..TokenEnd(line, p)];
            StartsLiteral(t + S, 0) ==> StartsLiteral(line, p)
  {
    var e := TokenEnd(line, p);
    var t := line[p..e];
    var J := t + S;
    if StartsLiteral(J, 0) {
      var m := LastQuote(J);
      assert |t| >= 2;
      if m < |t| {
        QuoteBound(line, p + m);
      }
    }
  }
}
