/**
 * The parser and builder pieces shared by the three frontmatter transforms
 * (docs, blog, about). Each transform looks for a leading block with
 * `/^---\n([\s\S]*?)\n---/`, reads single-line fields from it with
 * `/key:\s*["']?(.+?)["']?\s*$/m`, and writes a new block of `key: "value"`
 * lines in front of the untouched body.
 */
module Frontmatter {
  import opened Wrappers
  import opened Strings

  const Open: string := "---\n"
  const Close: string := "\n---"

  /* ---------------------------------------------------------------------- */
  /* The leading block                                                       */
  /* ---------------------------------------------------------------------- */

  /** `content.match(/^---\n([\s\S]*?)\n---/)`: the content must start with
      `---\n`; the block is everything up to the first later `\n---`, and the
      body is what follows that delimiter. */
  function MatchBlock(content: string): (r: Option<(string, string)>)
    ensures r.Some? ==> content == Open + r.value.0 + Close + r.value.1
    ensures r.Some? ==> !Contains(r.value.0 + "\n--", Close)
    ensures r.None? ==> !StartsWith(content, Open) || forall k: nat :: 4 <= k ==> !OccursAt(content, Close, k)
  {
    if !StartsWith(content, Open) then None
    else
      match IndexOfFrom(content, Close, 4)
      case None => None
      case Some(j) =>
        var block, body := content[4..j], content[j + 4..];
        FirstCloseLemma(content, j);
        assert content == Open + block + Close + body;
        Some((block, body))
  }

  lemma FirstCloseLemma(content: string, j: nat)
    requires StartsWith(content, Open) && 4 <= j && OccursAt(content, Close, j)
    requires forall k: nat :: 4 <= k < j ==> !OccursAt(content, Close, k)
    ensures !Contains(content[4..j] + "\n--", Close)
  {
    var s := content[4..j] + "\n--";
    assert content[j..j + 3] == content[j..j + 4][..3] == "\n--";
    assert content[4..j + 3] == content[4..j] + content[j..j + 3];
    assert s == content[4..j + 3];
    forall k: nat | k <= |s| ensures !OccursAt(s, Close, k) {
      if k + 4 <= |s| {
        var w := s[k..k + 4];
        forall x | 0 <= x < 4 ensures w[x] == content[4 + k..4 + k + 4][x] {
          assert w[x] == s[k + x] == content[4..j + 3][k + x];
        }
        assert w == content[4 + k..4 + k + 4];
        assert !OccursAt(content, Close, 4 + k);
      }
    }
  }

  /** A block in which the closing delimiter cannot appear early is found
      again, with the same body, by `MatchBlock`. */
  lemma MatchBlockFinds(block: string, body: string)
    requires !Contains(block + "\n--", Close)
    ensures MatchBlock(Open + block + Close + body) == Some((block, body))
  {
    var c := Open + block + Close + body;
    assert c[..4] == Open;
    var e := 4 + |block|;
    assert c[e..e + 4] == Close;
    assert c[4..e + 3] == block + "\n--";
    assert OccursAt(c, Close, e);
    forall k: nat | 4 <= k < e ensures !OccursAt(c, Close, k) {
      assert c[k..k + 4] == (block + "\n--")[k - 4..k];
      assert !OccursAt(block + "\n--", Close, k - 4);
    }
    var j := IndexOfFrom(c, Close, 4).value;
    assert j == e;
    assert c[4..e] == block && c[e + 4..] == body;
  }

  /** Every newline is followed by a character other than `-`, so no
      `\n---` can start inside the block. */
  predicate NewlinesNotBeforeDash(s: string) {
    forall k :: 0 <= k < |s| && s[k] == '\n' ==> k + 1 < |s| && s[k + 1] != '-'
  }

  lemma NoEarlyClose(s: string)
    requires NewlinesNotBeforeDash(s)
    ensures !Contains(s + "\n--", Close)
  {
    var t := s + "\n--";
    forall k: nat | k <= |t| ensures !OccursAt(t, Close, k) {
      if k + 4 <= |t| {
        if t[k] == '\n' {
          assert k < |s| && s[k] == '\n';
          assert t[k..k + 4][1] == s[k + 1] != Close[1];
        } else {
          assert t[k..k + 4][0] != Close[0];
        }
      }
    }
  }

  lemma NewlinesNotBeforeDashConcat(a: string, b: string)
    requires NewlinesNotBeforeDash(a) && NewlinesNotBeforeDash(b)
    ensures NewlinesNotBeforeDash(a + b)
  {
    var s := a + b;
    forall k | 0 <= k < |s| && s[k] == '\n' ensures k + 1 < |s| && s[k + 1] != '-' {
      if k < |a| {
        assert a[k] == '\n';
      } else {
        assert b[k - |a|] == '\n';
      }
    }
  }

  lemma NewlineThenLine(x: string)
    requires '\n' !in x && |x| > 0 && x[0] != '-'
    ensures NewlinesNotBeforeDash("\n" + x)
  {
    var s := "\n" + x;
    forall k | 0 < k < |s| ensures s[k] != '\n' {
      assert s[k] == x[k - 1];
    }
  }

  /* ---------------------------------------------------------------------- */
  /* Single-line fields                                                      */
  /* ---------------------------------------------------------------------- */

  /** Where the greedy `\s*` stops: the first non-whitespace index at or after `p`. */
  function SkipWhitespace(s: string, p: nat): (r: nat)
    requires p <= |s|
    decreases |s| - p
    ensures p <= r <= |s| && AllWhitespace(s[p..r])
    ensures r < |s| ==> !IsWhitespace(s[r])
  {
    if p < |s| && IsWhitespace(s[p]) then SkipWhitespace(s, p + 1) else p
  }

  /** The end of the line that contains index `p`. */
  function LineEnd(s: string, p: nat): (r: nat)
    requires p <= |s|
    decreases |s| - p
    ensures p <= r <= |s| && NoLineTerminator(s[p..r])
    ensures r < |s| ==> IsLineTerminator(s[r])
  {
    if p < |s| && !IsLineTerminator(s[p]) then LineEnd(s, p + 1) else p
  }

  /** The pattern's tail `["']?\s*$` accepts `u`, the rest of the line after the group. */
  predicate TailAccepts(u: string) {
    AllWhitespace(u) || (|u| > 0 && IsQuote(u[0]) && AllWhitespace(u[1..]))
  }

  /** The lazy group `(.+?)`: the shortest length, at least `n`, that the tail accepts. */
  function LazyEnd(t: string, n: nat): (r: nat)
    requires 1 <= n <= |t|
    decreases |t| - n
    ensures n <= r <= |t| && TailAccepts(t[r..])
    ensures forall k :: n <= k < r ==> !TailAccepts(t[k..])
  {
    if n == |t| then
      assert AllWhitespace(t[n..]);
      n
    else if TailAccepts(t[n..]) then n
    else LazyEnd(t, n + 1)
  }

  /** The group captured on a line that starts with a non-space character:
      a leading quote is skipped when something follows it, then the
      shortest text the tail accepts. */
  function LineCapture(line: string): (r: string)
    requires |line| > 0
    ensures 0 < |r| <= |line|
    ensures NoLineTerminator(line) ==> NoLineTerminator(r)
  {
    var t := if IsQuote(line[0]) && |line| >= 2 then line[1..] else line;
    var r := t[..LazyEnd(t, 1)];
    assert forall i :: 0 <= i < |r| ==> r[i] == line[i + |line| - |t|];
    r
  }

  /** The last index in `[lo, hi)` that is not a line terminator. */
  function LastNonTerminator(s: string, lo: nat, hi: nat): (r: Option<nat>)
    requires lo <= hi <= |s|
    decreases hi - lo
    ensures r.Some? ==> lo <= r.value < hi && !IsLineTerminator(s[r.value])
    ensures r.None? ==> forall k :: lo <= k < hi ==> IsLineTerminator(s[k])
  {
    if lo == hi then None
    else if !IsLineTerminator(s[hi - 1]) then Some(hi - 1)
    else LastNonTerminator(s, lo, hi - 1)
  }

  /** The group of `\s*["']?(.+?)["']?\s*$` (multiline) when the attempt
      starts at `p`, right after `key:`; `None` when it fails there.
      The greedy `\s*` may cross newlines: the value is then read from the
      next line that holds a non-space character. When only whitespace is
      left, the group is the last whitespace character that is not a line
      terminator. */
  function CaptureAt(s: string, p: nat): (r: Option<string>)
    requires p <= |s|
    ensures r.Some? ==> |r.value| > 0 && NoLineTerminator(r.value)
    ensures r.None? ==> AllWhitespace(s[p..])
  {
    var w := SkipWhitespace(s, p);
    if w < |s| then
      var e := LineEnd(s, w);
      assert e > w;
      Some(LineCapture(s[w..e]))
    else
      match LastNonTerminator(s, p, |s|)
      case None => None
      case Some(k) => Some([s[k]])
  }

  /** The regex search: tried at every index from `i` on, it succeeds at the
      first occurrence of `key:` where `CaptureAt` succeeds. */
  function SearchField(block: string, key: string, i: nat): (r: Option<string>)
    decreases |block| - i
    ensures r.Some? ==> |r.value| > 0 && NoLineTerminator(r.value)
  {
    if i + |key| + 1 > |block| then None
    else if OccursAt(block, key + ":", i) && CaptureAt(block, i + |key| + 1).Some? then
      CaptureAt(block, i + |key| + 1)
    else SearchField(block, key, i + 1)
  }

  /** `block.match(/key:\s*["']?(.+?)["']?\s*$/m)?.[1].trim()`. */
  function FieldValue(block: string, key: string): (r: Option<string>)
    ensures r.Some? ==> Trimmed(r.value) && NoLineTerminator(r.value)
  {
    match SearchField(block, key, 0)
    case None => None
    case Some(c) =>
      TrimKeepsNoLineTerminator(c);
      Some(Trim(c))
  }

  /** The field value, or `default` when the pattern does not match. */
  function FieldOr(block: string, key: string, default: string): (r: string)
    ensures Trimmed(default) && NoLineTerminator(default) ==> Trimmed(r) && NoLineTerminator(r)
  {
    match FieldValue(block, key)
    case Some(v) => v
    case None => default
  }

  /** The block holds no `key:` anywhere. */
  ghost predicate Absent(block: string, key: string) {
    forall m: nat :: !OccursAt(block, key + ":", m)
  }

  lemma NotContainedAbsent(block: string, key: string)
    requires !Contains(block, key + ":")
    ensures Absent(block, key)
  {
    forall m: nat ensures !OccursAt(block, key + ":", m) {
      if m <= |block| {
        assert !OccursAt(block, key + ":", m);
      }
    }
  }

  /** A field whose key the block never mentions takes its default. */
  lemma FieldAbsent(block: string, key: string, default: string)
    requires Absent(block, key)
    ensures FieldValue(block, key) == None
    ensures FieldOr(block, key, default) == default
  {
    SearchAbsent(block, key, 0);
  }

  /** Indices without an occurrence of `key:` are passed over. */
  lemma {:induction false} SearchSkips(s: string, key: string, i: nat, j: nat)
    requires i <= j
    requires forall m: nat :: i <= m < j ==> !OccursAt(s, key + ":", m)
    ensures SearchField(s, key, i) == SearchField(s, key, j)
    decreases j - i
  {
    if i < j {
      SearchSkips(s, key, i + 1, j);
    }
  }

  /** Without an occurrence of `key:` the pattern does not match. */
  lemma SearchAbsent(s: string, key: string, i: nat)
    requires forall m: nat :: i <= m ==> !OccursAt(s, key + ":", m)
    ensures SearchField(s, key, i) == None
  {
    if i <= |s| {
      SearchSkips(s, key, i, |s|);
    }
  }

  /** The first occurrence of `key:` decides the value when the attempt there succeeds. */
  lemma SearchFinds(s: string, key: string, k: nat)
    requires OccursAt(s, key + ":", k) && CaptureAt(s, k + |key| + 1).Some?
    requires forall m: nat :: m < k ==> !OccursAt(s, key + ":", m)
    ensures SearchField(s, key, 0) == CaptureAt(s, k + |key| + 1)
  {
    SearchSkips(s, key, 0, k);
    SearchHit(s, key, k);
  }

  /** An occurrence of `key:` whose attempt succeeds is where the search stops. */
  lemma SearchHit(s: string, key: string, k: nat)
    requires OccursAt(s, key + ":", k) && CaptureAt(s, k + |key| + 1).Some?
    ensures SearchField(s, key, k) == CaptureAt(s, k + |key| + 1)
  {
  }

  /** Some occurrence of `key:` with a successful attempt means the pattern matches. */
  lemma {:induction false} SearchMatches(s: string, key: string, i: nat, k: nat)
    requires i <= k && OccursAt(s, key + ":", k) && CaptureAt(s, k + |key| + 1).Some?
    ensures SearchField(s, key, i).Some?
    decreases k - i
  {
    if i < k && !(OccursAt(s, key + ":", i) && CaptureAt(s, i + |key| + 1).Some?) {
      SearchMatches(s, key, i + 1, k);
    }
  }

  /** The attempt succeeds whenever a non-space character follows. */
  lemma CaptureAtSucceeds(s: string, p: nat, q: nat)
    requires p <= q < |s| && !IsWhitespace(s[q])
    ensures CaptureAt(s, p).Some?
  {
    var w := SkipWhitespace(s, p);
    forall i | p <= i < w ensures IsWhitespace(s[i]) {
      assert s[i] == s[p..w][i - p];
    }
  }

  /** `LineEnd` stops at the first line terminator. */
  lemma LineEndAt(s: string, w: nat, e: nat)
    requires w <= e <= |s| && NoLineTerminator(s[w..e])
    requires e == |s| || IsLineTerminator(s[e])
    ensures LineEnd(s, w) == e
  {
    var r := LineEnd(s, w);
    forall i | w <= i < e ensures !IsLineTerminator(s[i]) {
      assert s[i] == s[w..e][i - w];
    }
    forall i | w <= i < r ensures !IsLineTerminator(s[i]) {
      assert s[i] == s[w..r][i - w];
    }
  }

  /** The group on the line `"v"` is `v`: the quotes are consumed by the pattern. */
  lemma LineCaptureQuoted(v: string)
    requires |v| > 0
    ensures LineCapture("\"" + v + "\"") == v
  {
    var line := "\"" + v + "\"";
    var t := line[1..];
    assert t == v + "\"";
    forall k | 1 <= k < |v| ensures !TailAccepts(t[k..]) {
      var u := t[k..];
      assert u[|u| - 1] == '"';
      assert u[1..][|u| - 2] == '"';
    }
    assert t[|v|..] == "\"";
    assert LazyEnd(t, 1) == |v|;
    assert t[..|v|] == v;
  }

  /** On a line ` "v"` (ending the block or followed by a newline) the group is exactly `v`. */
  lemma CaptureQuoted(s: string, p: nat, v: string)
    requires p + |v| + 3 <= |s| && s[p..p + |v| + 3] == " \"" + v + "\""
    requires p + |v| + 3 == |s| || s[p + |v| + 3] == '\n'
    requires |v| > 0 && NoLineTerminator(v)
    ensures CaptureAt(s, p) == Some(v)
  {
    assert s[p] == ' ' && s[p + 1] == '"';
    assert SkipWhitespace(s, p + 1) == p + 1;
    assert SkipWhitespace(s, p) == p + 1;
    var w, end := p + 1, p + |v| + 3;
    assert s[w..end] == s[p..end][1..] == "\"" + v + "\"";
    forall i | w <= i < end ensures !IsLineTerminator(s[i]) {
      assert s[i] == s[w..end][i - w];
      if w < i < end - 1 {
        assert s[i] == v[i - w - 1];
      }
    }
    LineEndAt(s, w, end);
    LineCaptureQuoted(v);
  }

  /** A pattern longer than the text does not occur in it. */
  lemma LongerNotContained(s: string, pat: string)
    requires |s| < |pat|
    ensures !Contains(s, pat)
  {
  }

  /** A literal line `key: "value"`, as the builders write it. */
  function QuotedLine(key: string, value: string): string {
    key + ": \"" + value + "\""
  }

  /* ---------------------------------------------------------------------- */
  /* Occurrences of field names                                              */
  /* ---------------------------------------------------------------------- */

  lemma NotContainsConcat(x: string, y: string, pat: string)
    requires !Contains(x, pat) && !Contains(y, pat)
    requires (|y| > 0 && y[0] !in pat) || (|x| > 0 && x[|x| - 1] !in pat)
    ensures !Contains(x + y, pat)
  {
    var s := x + y;
    forall k: nat | k <= |s| ensures !OccursAt(s, pat, k) {
      if k + |pat| <= |s| {
        if k >= |x| {
          SliceOfConcatRight(x, y, k, k + |pat|);
          assert !OccursAt(y, pat, k - |x|);
        } else if k + |pat| <= |x| {
          SliceOfConcatLeft(x, y, k, k + |pat|);
          assert !OccursAt(x, pat, k);
        } else if |y| > 0 && y[0] !in pat {
          assert s[k..k + |pat|][|x| - k] == y[0] != pat[|x| - k];
        } else {
          assert s[k..k + |pat|][|x| - 1 - k] == x[|x| - 1] != pat[|x| - 1 - k];
        }
      }
    }
  }

  /** A pattern with a character that `s` lacks does not occur in `s`. */
  lemma NotContainsMissingChar(s: string, pat: string, c: char)
    requires c in pat && c !in s
    ensures !Contains(s, pat)
  {
    var i :| 0 <= i < |pat| && pat[i] == c;
    forall k: nat | k <= |s| ensures !OccursAt(s, pat, k) {
      if k + |pat| <= |s| {
        assert s[k + i] in s;
        assert s[k..k + |pat|][i] == s[k + i] != c;
      }
    }
  }

  /** No occurrence of `pat` starts inside `a` when `a` lacks it and the
      character after `a` is not in `pat`. */
  lemma NoOccurrenceBefore(a: string, b: string, pat: string)
    requires !Contains(a, pat) && |b| > 0 && b[0] !in pat
    ensures forall m: nat :: m < |a| ==> !OccursAt(a + b, pat, m)
  {
    forall m: nat | m < |a| ensures !OccursAt(a + b, pat, m) {
      if m + |pat| <= |a| + |b| {
        if m + |pat| <= |a| {
          assert a[m..m + |pat|] == (a + b)[m..m + |pat|];
          assert !OccursAt(a, pat, m);
        } else {
          assert (a + b)[m..m + |pat|][|a| - m] == b[0] != pat[|a| - m];
        }
      }
    }
  }

  /** A quoted line `key: "v"` whose value lacks `pat` lacks `pat` too,
      when `pat` has neither a space nor a double quote. */
  lemma QuotedLineLacks(key: string, v: string, pat: string)
    requires !Contains(v, pat) && ' ' !in pat && '"' !in pat
    requires |pat| > 0 && !Contains(key + ":", pat)
    ensures !Contains(QuotedLine(key, v), pat)
  {
    NotContainsMissingChar(" \"", pat, pat[0]);
    NotContainsMissingChar("\"", pat, pat[0]);
    assert (key + ":") + " \"" == key + ": \"";
    NotContainsConcat(key + ":", " \"", pat);
    assert (key + ": \"")[|key + ": \""| - 1] == '"';
    NotContainsConcat(key + ": \"", v, pat);
    NotContainsConcat(key + ": \"" + v, "\"", pat);
    assert QuotedLine(key, v) == key + ": \"" + v + "\"";
  }

  /* ---------------------------------------------------------------------- */
  /* Reading back what the builders write                                    */
  /* ---------------------------------------------------------------------- */

  /** A rebuilt block whose newlines never start a `\n---` is found again,
      and the body after it is recovered unchanged. */
  lemma RebuildFinds(inner: string, body: string)
    requires NewlinesNotBeforeDash(inner)
    ensures MatchBlock(Open + inner + Close + body) == Some((inner, body))
  {
    NoEarlyClose(inner);
    MatchBlockFinds(inner, body);
  }

  /** A quoted line with a one-line value holds no newline, so it may follow a newline. */
  lemma QuotedLineShape(key: string, v: string)
    requires |key| > 0 && '\n' !in key && key[0] != '-' && NoLineTerminator(v)
    ensures '\n' !in QuotedLine(key, v)
    ensures NewlinesNotBeforeDash(QuotedLine(key, v))
    ensures NewlinesNotBeforeDash("\n" + QuotedLine(key, v))
  {
    var q := QuotedLine(key, v);
    forall i | 0 <= i < |q| ensures q[i] != '\n' {
      if |key| <= i < |key| + 3 {
      } else if i < |key| {
        assert q[i] == key[i];
        assert key[i] in key;
      } else if i < |q| - 1 {
        assert q[i] == v[i - |key| - 3];
      }
    }
    NewlineThenLine(q);
  }

  /** The value of a field is read back from a `key: "v"` line when no
      earlier `key:` occurs and the line ends the block or a newline follows it. */
  lemma ReadQuotedField(s: string, key: string, k: nat, v: string)
    requires OccursAt(s, QuotedLine(key, v), k)
    requires k + |QuotedLine(key, v)| == |s| || s[k + |QuotedLine(key, v)|] == '\n'
    requires forall m: nat :: m < k ==> !OccursAt(s, key + ":", m)
    requires |v| > 0 && NoLineTerminator(v) && Trimmed(v)
    ensures FieldValue(s, key) == Some(v)
  {
    QuotedLineParts(s, key, k, v);
    QuotedLineCaptures(s, key, k, v);
    SearchFindsValue(s, key, k, v);
    TrimOfTrimmed(v);
  }

  /** The attempt just after `key:` on a quoted line captures the value. */
  lemma QuotedLineCaptures(s: string, key: string, k: nat, v: string)
    requires OccursAt(s, QuotedLine(key, v), k)
    requires k + |QuotedLine(key, v)| == |s| || s[k + |QuotedLine(key, v)|] == '\n'
    requires |v| > 0 && NoLineTerminator(v)
    ensures CaptureAt(s, k + |key| + 1) == Some(v)
  {
    var p := k + |key| + 1;
    QuotedLineParts(s, key, k, v);
    assert p + |v| + 3 == k + |QuotedLine(key, v)|;
    CaptureQuoted(s, p, v);
  }

  /** The first `key:` whose attempt captures `v` gives `v`. */
  lemma SearchFindsValue(s: string, key: string, k: nat, v: string)
    requires OccursAt(s, key + ":", k) && CaptureAt(s, k + |key| + 1) == Some(v)
    requires forall m: nat :: m < k ==> !OccursAt(s, key + ":", m)
    ensures SearchField(s, key, 0) == Some(v)
  {
    SearchFinds(s, key, k);
  }

  /** A quoted line placed at `k` is `key:` followed by ` "v"`. */
  lemma QuotedLineParts(s: string, key: string, k: nat, v: string)
    requires OccursAt(s, QuotedLine(key, v), k)
    ensures |QuotedLine(key, v)| == |key| + |v| + 4
    ensures OccursAt(s, key + ":", k)
    ensures s[k + |key| + 1..k + |key| + 1 + |v| + 3] == " \"" + v + "\""
  {
    var q := QuotedLine(key, v);
    var p := k + |key| + 1;
    assert s[k..k + |q|] == q;
    assert s[k..p] == q[..|key| + 1] == key + ":";
    assert s[p..p + |v| + 3] == q[|key| + 1..] == " \"" + v + "\"";
  }

  /** A `key: "` anywhere makes the pattern for `key` match. */
  lemma FieldPresent(s: string, key: string, k: nat)
    requires OccursAt(s, key + ": \"", k)
    ensures FieldValue(s, key).Some?
  {
    var p := k + |key| + 1;
    assert s[k..k + |key| + 3] == key + ": \"";
    assert s[k..p] == s[k..k + |key| + 3][..|key| + 1] == key + ":";
    assert s[p + 1] == '"';
    CaptureAtSucceeds(s, p, p + 1);
    SearchMatches(s, key, 0, k);
  }

  /** A `key: "v"` line after a first line that lacks `key:` is the one read back. */
  lemma ReadLaterQuotedField(first: string, key: string, v: string, tail: string)
    requires !Contains(first, key + ":") && '\n' !in key
    requires tail == [] || tail[0] == '\n'
    requires |v| > 0 && NoLineTerminator(v) && Trimmed(v)
    ensures FieldValue(first + "\n" + QuotedLine(key, v) + tail, key) == Some(v)
  {
    var q := QuotedLine(key, v);
    var after := "\n" + (q + tail);
    var s := first + after;
    ConcatAssociates("\n", q, tail);
    ConcatAssociates(first, "\n" + q, tail);
    ConcatAssociates(first, "\n", q);
    assert s == first + "\n" + q + tail;
    NoOccurrenceBefore(first, after, key + ":");
    var k := |first| + 1;
    assert s[|first|] == '\n';
    assert !OccursAt(s, key + ":", |first|) by {
      if |first| + |key| + 1 <= |s| {
        assert s[|first|..|first| + |key| + 1][0] == '\n';
        if |key| > 0 {
          assert key[0] in key;
        }
      }
    }
    assert s[k..k + |q|] == q by {
      SliceOfConcatRight(first, after, k, k + |q|);
      SliceOfConcatRight("\n", q + tail, 1, 1 + |q|);
      SliceOfConcatLeft(q, tail, 0, |q|);
    }
    ReadQuotedField(s, key, k, v);
  }

  /** A quoted line starts with `key: "`, wherever it is placed. */
  lemma QuotedLineStarts(pre: string, key: string, v: string, post: string)
    ensures OccursAt(pre + QuotedLine(key, v) + post, key + ": \"", |pre|)
  {
    var s := pre + QuotedLine(key, v) + post;
    var n := |key| + 3;
    assert s[|pre|..|pre| + n] == QuotedLine(key, v)[..n];
  }

  /** A quoted line at the start makes the pattern for its key match. */
  lemma FirstFieldPresent(key: string, v: string, post: string)
    ensures FieldValue(QuotedLine(key, v) + post, key).Some?
  {
    assert "" + QuotedLine(key, v) == QuotedLine(key, v);
    QuotedFieldPresent("", key, v, post);
  }

  /** A quoted line anywhere makes the pattern for its key match. */
  lemma QuotedFieldPresent(pre: string, key: string, v: string, post: string)
    ensures FieldValue(pre + QuotedLine(key, v) + post, key).Some?
  {
    QuotedLineStarts(pre, key, v, post);
    FieldPresent(pre + QuotedLine(key, v) + post, key, |pre|);
  }

  /* ---------------------------------------------------------------------- */
  /* The title of posts and about pages                                      */
  /* ---------------------------------------------------------------------- */

  /** `s.replace(/^["']|["']$/g, '')`: one quote at the start and one at the
      end are removed; a lone quote is removed once. */
  function StripOuterQuote(s: string): (r: string)
    ensures |r| <= |s| - LeadingQuote(s) <= |r| + 1
    ensures r == s[LeadingQuote(s)..LeadingQuote(s) + |r|]
    ensures |r| + 2 == |s| <==> |s| >= 2 && IsQuote(s[0]) && IsQuote(s[|s| - 1])
    ensures r == s <==> s == [] || (!IsQuote(s[0]) && !IsQuote(s[|s| - 1]))
  {
    var a := if |s| > 0 && IsQuote(s[0]) then s[1..] else s;
    var r := if |a| > 0 && IsQuote(a[|a| - 1]) then a[..|a| - 1] else a;
    assert r == s[|s| - |a|..|s| - |a| + |r|];
    r
  }

  /** 1 when `s` starts with a quote, else 0. */
  function LeadingQuote(s: string): nat {
    if |s| > 0 && IsQuote(s[0]) then 1 else 0
  }

  /** A value between a pair of quotes loses exactly those two. */
  lemma StripQuotedPair(q: char, v: string, q': char)
    requires IsQuote(q) && IsQuote(q')
    ensures StripOuterQuote([q] + v + [q']) == v
  {
    var s := [q] + v + [q'];
    assert s[1..] == v + [q'];
    assert (v + [q'])[..|v|] == v;
  }

  lemma StripKeepsNoLineTerminator(s: string)
    requires NoLineTerminator(s)
    ensures NoLineTerminator(StripOuterQuote(s))
  {
    var r := StripOuterQuote(s);
    var i := LeadingQuote(s);
    assert forall k :: 0 <= k < |r| ==> r[k] == s[i + k];
  }

  /** The title every script writes when a page has none. */
  const DefaultTitle := "Untitled"

  lemma DefaultTitlePlain()
    ensures Trimmed(DefaultTitle) && NoLineTerminator(DefaultTitle)
  {
    assert DefaultTitle == ['U', 'n', 't', 'i', 't', 'l', 'e', 'd'];
  }

  /** The captured title, trimmed, with its outer quotes stripped; `Untitled` when absent. */
  function StrippedTitle(block: string): (r: string)
    ensures NoLineTerminator(r)
  {
    match FieldValue(block, "title")
    case Some(v) =>
      StripKeepsNoLineTerminator(v);
      StripOuterQuote(v)
    case None =>
      DefaultTitlePlain();
      DefaultTitle
  }

  /** A block without `title:` gets the title `Untitled`. */
  lemma StrippedTitleAbsent(block: string)
    requires Absent(block, "title")
    ensures StrippedTitle(block) == "Untitled"
  {
    FieldAbsent(block, "title", DefaultTitle);
  }
}
