/** backend/agents/base.py: the retry loop around a model call, and the fence stripping of its reply. */
module Invoke {
  import opened Options
  import opened Sequences

  // ----- _invoke_json -----

  /** One model call: a parsed object, a JSON or value error, or any other exception. */
  datatype Attempt<T> = Answer(value: T) | Malformed(message: string) | Transient(message: string)

  /** The AgentError that an invocation raises. */
  datatype AgentError = MalformedJson(detail: string) | Exhausted(limit: nat, last: Option<string>)

  datatype Invocation<T> = Parsed(value: T) | Failed(error: AgentError)

  /** str(exc), for the agent's name. The second half of the malformed text is a plain literal in
      the program, braces included. */
  function ErrorText(agent: string, e: AgentError): string {
    match e
    case MalformedJson(detail) =>
      agent + ": malformed JSON response \U{2014} " + detail
      + "\nCheck backend/prompts/{self.name}.md: 'Respond ONLY with valid JSON' must be the final instruction."
    case Exhausted(limit, last) =>
      agent + ": all " + Digits(limit) + " retries exhausted \U{2014} " + if last.Some? then last.value else "None"
  }

  function Pow2(n: nat): nat {
    if n == 0 then 1 else 2 * Pow2(n - 1)
  }

  /** The seconds slept after the first n failed attempts. */
  function Backoff(base: real, jitter: nat -> real, n: nat): real {
    if n == 0 then 0.0 else Backoff(base, jitter, n - 1) + base * Pow2(n - 1) as real + jitter(n - 1)
  }

  /** The number of transient failures before the first other outcome, counted up to limit. */
  ghost function TransientRun<T>(attempts: nat -> Attempt<T>, limit: nat): (k: nat)
    ensures k <= limit
    ensures forall i :: 0 <= i < k ==> attempts(i).Transient?
    ensures k < limit ==> !attempts(k).Transient?
  {
    if limit == 0 then 0
    else
      var k := TransientRun(attempts, limit - 1);
      if k == limit - 1 && attempts(k).Transient? then limit else k
  }

  lemma {:induction false} TransientRunUnique<T>(attempts: nat -> Attempt<T>, limit: nat, k: nat)
    requires k <= limit && forall i :: 0 <= i < k ==> attempts(i).Transient?
    requires k < limit ==> !attempts(k).Transient?
    ensures TransientRun(attempts, limit) == k
  {
  }

  /** The loop stops at the first decisive attempt: it calls the model once more than there were
      transient failures before it, never after a malformed reply, and at most limit times. The last
      call decides the outcome, and there is one sleep between each two calls. */
  method InvokeJson<T>(attempts: nat -> Attempt<T>, jitter: nat -> real, limit: nat, base: real)
    returns (r: Invocation<T>, calls: nat, slept: real)
    ensures calls == if TransientRun(attempts, limit) < limit then TransientRun(attempts, limit) + 1 else limit
    ensures calls == 0 ==> r == Failed(Exhausted(0, None))
    ensures calls > 0 ==>
              match attempts(calls - 1)
              case Answer(value) => r == Parsed(value)
              case Malformed(message) => r == Failed(MalformedJson(message))
              case Transient(message) => calls == limit && r == Failed(Exhausted(limit, Some(message)))
    ensures slept == Backoff(base, jitter, if calls == 0 then 0 else calls - 1)
  {
    var lastExc: Option<string> := None;
    calls, slept := 0, 0.0;
    for attempt := 1 to limit + 1
      invariant calls == attempt - 1
      invariant forall i :: 0 <= i < calls ==> attempts(i).Transient?
      invariant slept == Backoff(base, jitter, if calls == 0 || calls < limit then calls else calls - 1)
      invariant calls == 0 ==> lastExc == None
      invariant calls > 0 ==> lastExc == Some(attempts(calls - 1).message)
    {
      var outcome := attempts(attempt - 1);
      calls := calls + 1;
      if !outcome.Transient? {
        TransientRunUnique(attempts, limit, attempt - 1);
      }
      match outcome {
        case Answer(value) =>
          return Parsed(value), calls, slept;
        case Malformed(message) =>
          return Failed(MalformedJson(message)), calls, slept;
        case Transient(message) =>
          lastExc := Some(message);
          if attempt < limit {
            slept := slept + (base * Pow2(attempt - 1) as real + jitter(attempt - 1));
          }
      }
    }
    TransientRunUnique(attempts, limit, limit);
    r := Failed(Exhausted(limit, lastExc));
  }

  /** The sleep is the geometric sum of the delays plus the jitter drawn: with jitters between least
      and most it lies between the sums with each of them. */
  lemma {:induction false} BackoffBounds(base: real, jitter: nat -> real, least: real, most: real, n: nat)
    requires forall i :: least <= jitter(i) <= most
    ensures base * (Pow2(n) - 1) as real + n as real * least <= Backoff(base, jitter, n)
    ensures Backoff(base, jitter, n) <= base * (Pow2(n) - 1) as real + n as real * most
  {
    if n == 0 {
    } else {
      BackoffBounds(base, jitter, least, most, n - 1);
      assert (Pow2(n) - 1) as real == (Pow2(n - 1) - 1) as real + Pow2(n - 1) as real;
      Distribute(base, (Pow2(n - 1) - 1) as real, Pow2(n - 1) as real);
      assert n as real * most == (n - 1) as real * most + most;
      assert n as real * least == (n - 1) as real * least + least;
    }
  }

  /** Pow2 doubles from one. */
  lemma {:induction false} PowersDouble(m: nat, n: nat)
    ensures Pow2(m + n) == Pow2(m) * Pow2(n) && Pow2(1) == 2
  {
    if n == 0 {
    } else {
      PowersDouble(m, n - 1);
    }
  }

  lemma Distribute(a: real, x: real, y: real)
    ensures a * (x + y) == a * x + a * y
  {
  }

  lemma {:induction false} BackoffGrows(base: real, jitter: nat -> real, m: nat, n: nat)
    requires m <= n && base >= 0.0 && forall i :: jitter(i) >= 0.0
    ensures Backoff(base, jitter, m) <= Backoff(base, jitter, n)
    decreases n - m
  {
    if m == n {
    } else {
      BackoffGrows(base, jitter, m, n - 1);
      NonNegative(base, Pow2(n - 1) as real);
    }
  }

  lemma NonNegative(a: real, b: real)
    requires a >= 0.0 && b >= 0.0
    ensures a * b >= 0.0
  {
  }

  /** However many calls are made, the total sleep is at most the sum over limit - 1 delays. */
  lemma TotalSleepBound(jitter: nat -> real, limit: nat, base: real, most: real, calls: nat)
    requires 0 < calls <= limit && base >= 0.0 && forall i :: 0.0 <= jitter(i) <= most
    ensures Backoff(base, jitter, calls - 1) <= base * (Pow2(limit - 1) - 1) as real + (limit - 1) as real * most
  {
    var m, n := calls - 1, limit - 1;
    assert Backoff(base, jitter, m) <= Backoff(base, jitter, n) by { BackoffGrows(base, jitter, m, n); }
    assert Backoff(base, jitter, n) <= base * (Pow2(n) - 1) as real + n as real * most by {
      BackoffBounds(base, jitter, 0.0, most, n);
    }
  }

  // ----- The strip part of _parse_json -----

  /** str.isspace */
  predicate IsSpace(c: char) {
    || 9 <= c as int <= 13 || 28 <= c as int <= 32 || c as int == 0x85 || c as int == 0xA0 || c as int == 0x1680
    || 0x2000 <= c as int <= 0x200A || c as int == 0x2028 || c as int == 0x2029 || c as int == 0x202F
    || c as int == 0x205F || c as int == 0x3000
  }

  /** The characters at which str.splitlines breaks. */
  predicate IsBreak(c: char) {
    10 <= c as int <= 13 || 28 <= c as int <= 30 || c as int == 0x85 || c as int == 0x2028 || c as int == 0x2029
  }

  function Strip(s: string): string {
    StripRight(StripLeft(s))
  }

  function StripLeft(s: string): string {
    if s != "" && IsSpace(s[0]) then StripLeft(s[1..]) else s
  }

  function StripRight(s: string): string {
    if s != "" && IsSpace(s[|s| - 1]) then StripRight(s[..|s| - 1]) else s
  }

  /** The length of the first line, without its terminator. */
  function LineEnd(s: string): (n: nat)
    ensures n <= |s|
    ensures forall i :: 0 <= i < n ==> !IsBreak(s[i])
    ensures n < |s| ==> IsBreak(s[n])
  {
    if s == "" || IsBreak(s[0]) then 0 else 1 + LineEnd(s[1..])
  }

  function SplitLines(s: string): seq<string> {
    if s == "" then
      []
    else
      var n := LineEnd(s);
      if n == |s| then [s]
      else
        var width := if s[n] == '\r' && n + 1 < |s| && s[n + 1] == '\n' then 2 else 1;
        [s[..n]] + SplitLines(s[n + width..])
  }

  const TICKS := "```"

  /** _parse_json up to the call of json.loads. */
  function StripFence(raw: string): string {
    var text := Strip(raw);
    if TICKS <= text then
      var lines := SplitLines(text);
      var last := |lines| - 1;
      Join(if last >= 0 && Strip(lines[last]) == TICKS then (if last >= 1 then lines[1..last] else [])
           else if lines != [] then lines[1..] else [], "\n")
    else
      text
  }

  function Fence(tag: string, body: string): string {
    TICKS + tag + "\n" + body + "\n" + TICKS
  }

  predicate NoBreaks(s: string) {
    forall i :: 0 <= i < |s| ==> !IsBreak(s[i])
  }

  /** Every line break in s is a plain newline. */
  predicate OnlyNewlines(s: string) {
    forall i :: 0 <= i < |s| && IsBreak(s[i]) ==> s[i] == '\n'
  }

  predicate AllSpace(s: string) {
    forall i :: 0 <= i < |s| ==> IsSpace(s[i])
  }

  lemma {:induction false} StripLeftSpaces(pre: string, s: string)
    requires AllSpace(pre) && s != "" && !IsSpace(s[0])
    ensures StripLeft(pre + s) == s
  {
    if pre == "" {
      assert pre + s == s;
    } else {
      StripLeftSpaces(pre[1..], s);
      assert (pre + s)[1..] == pre[1..] + s;
    }
  }

  lemma {:induction false} StripRightSpaces(s: string, post: string)
    requires AllSpace(post) && s != "" && !IsSpace(s[|s| - 1])
    ensures StripRight(s + post) == s
  {
    if post == "" {
      assert s + post == s;
    } else {
      var n := |post| - 1;
      StripRightSpaces(s, post[..n]);
      assert (s + post)[..|s + post| - 1] == s + post[..n];
    }
  }

  lemma StripSurrounding(pre: string, s: string, post: string)
    requires AllSpace(pre) && AllSpace(post) && s != "" && !IsSpace(s[0]) && !IsSpace(s[|s| - 1])
    ensures Strip(pre + s + post) == s
  {
    assert pre + s + post == pre + (s + post);
    StripLeftSpaces(pre, s + post);
    StripRightSpaces(s, post);
  }

  lemma {:induction false} LineEndAt(line: string, rest: string)
    requires NoBreaks(line) && rest != "" && IsBreak(rest[0])
    ensures LineEnd(line + rest) == |line|
  {
    if line == "" {
      assert line + rest == rest;
    } else {
      LineEndAt(line[1..], rest);
      assert (line + rest)[1..] == line[1..] + rest;
    }
  }

  lemma SplitFirstLine(line: string, rest: string)
    requires NoBreaks(line)
    ensures SplitLines(line + ("\n" + rest)) == [line] + SplitLines(rest)
  {
    var s := line + ("\n" + rest);
    LineEndAt(line, "\n" + rest);
    assert s[|line|] == '\n' && s[..|line|] == line && s[|line| + 1..] == rest;
  }

  /** body.split("\n") */
  function SplitNewlines(s: string): (r: seq<string>)
    ensures r != []
  {
    if '\n' !in s then [s] else var n := IndexOf(s, '\n'); [s[..n]] + SplitNewlines(s[n + 1..])
  }

  lemma {:induction false} JoinInvertsSplit(s: string)
    ensures Join(SplitNewlines(s), "\n") == s
    decreases |s|
  {
    if '\n' !in s {
    } else {
      var n := IndexOf(s, '\n');
      JoinInvertsSplit(s[n + 1..]);
      var parts := SplitNewlines(s);
      assert parts[1..] == SplitNewlines(s[n + 1..]);
      assert s == s[..n] + "\n" + s[n + 1..];
    }
  }

  lemma PlainLine(s: string)
    requires OnlyNewlines(s) && '\n' !in s
    ensures NoBreaks(s)
  {
    forall i | 0 <= i < |s|
      ensures !IsBreak(s[i])
    {
      assert s[i] in s;
    }
  }

  lemma {:induction false} SplitClosedBody(body: string, close: string)
    requires OnlyNewlines(body) && SplitLines(close) == [close]
    ensures SplitLines(body + ("\n" + close)) == SplitNewlines(body) + [close]
    decreases |body|
  {
    if '\n' !in body {
      PlainLine(body);
      SplitFirstLine(body, close);
    } else {
      var n := IndexOf(body, '\n');
      SplitClosedBody(body[n + 1..], close);
      PlainLine(body[..n]);
      SplitAtFirst(body, n, body[n + 1..] + ("\n" + close), close);
    }
  }

  lemma SplitAtFirst(body: string, n: nat, tail: string, close: string)
    requires '\n' in body && n == IndexOf(body, '\n') && NoBreaks(body[..n])
    requires tail == body[n + 1..] + ("\n" + close) && SplitLines(tail) == SplitNewlines(body[n + 1..]) + [close]
    ensures SplitLines(body + ("\n" + close)) == SplitNewlines(body) + [close]
  {
    MoveBreak(body, n, close);
    SplitAtNewline(body, n);
    SplitFirstLine(body[..n], tail);
  }

  lemma MoveBreak(body: string, n: nat, close: string)
    requires n < |body| && body[n] == '\n'
    ensures body + ("\n" + close) == body[..n] + ("\n" + (body[n + 1..] + ("\n" + close)))
  {
    assert body == body[..n] + "\n" + body[n + 1..];
  }

  lemma TicksAreOneLine()
    ensures SplitLines(TICKS) == [TICKS] && Strip(TICKS) == TICKS
  {
    StripSurrounding("", TICKS, "");
    assert "" + TICKS + "" == TICKS;
  }

  lemma {:induction false} LinesHaveNoBreaks(s: string)
    ensures forall i :: 0 <= i < |SplitLines(s)| ==> NoBreaks(SplitLines(s)[i])
    decreases |s|
  {
    if s == "" {
    } else {
      var n := LineEnd(s);
      if n < |s| {
        var width := if s[n] == '\r' && n + 1 < |s| && s[n + 1] == '\n' then 2 else 1;
        LinesHaveNoBreaks(s[n + width..]);
      }
    }
  }

  lemma {:induction false} JoinOnlyNewlines(lines: seq<string>)
    requires forall i :: 0 <= i < |lines| ==> NoBreaks(lines[i])
    ensures OnlyNewlines(Join(lines, "\n"))
  {
    if |lines| <= 1 {
    } else {
      JoinOnlyNewlines(lines[1..]);
    }
  }

  lemma FenceShape(tag: string, body: string)
    ensures var f := Fence(tag, body);
            && f != "" && !IsSpace(f[0]) && !IsSpace(f[|f| - 1]) && TICKS <= f
            && f == (TICKS + tag) + ("\n" + (body + ("\n" + TICKS)))
  {
    var f := Fence(tag, body);
    assert f[0] == '`' && f[|f| - 1] == '`';
  }

  lemma FencedText(pre: string, tag: string, body: string, post: string)
    requires AllSpace(pre) && AllSpace(post) && NoBreaks(tag)
    ensures Strip(pre + Fence(tag, body) + post) == Fence(tag, body) && TICKS <= Fence(tag, body)
    ensures SplitLines(Fence(tag, body)) == [TICKS + tag] + SplitLines(body + ("\n" + TICKS))
  {
    FenceShape(tag, body);
    StripSurrounding(pre, Fence(tag, body), post);
    SplitFirstLine(TICKS + tag, body + ("\n" + TICKS));
  }

  lemma PlainBodyComesBack(pre: string, tag: string, body: string, post: string)
    requires AllSpace(pre) && AllSpace(post) && NoBreaks(tag) && OnlyNewlines(body)
    ensures StripFence(pre + Fence(tag, body) + post) == body
  {
    FencedText(pre, tag, body, post);
    TicksAreOneLine();
    SplitClosedBody(body, TICKS);
    JoinInvertsSplit(body);
    var lines := SplitLines(Fence(tag, body));
    assert lines == [TICKS + tag] + SplitNewlines(body) + [TICKS];
    assert lines[1..|lines| - 1] == SplitNewlines(body);
  }

  lemma StrippedHasOnlyNewlines(pre: string, tag: string, body: string, post: string)
    requires AllSpace(pre) && AllSpace(post) && NoBreaks(tag)
    ensures OnlyNewlines(StripFence(pre + Fence(tag, body) + post))
  {
    FencedText(pre, tag, body, post);
    var lines := SplitLines(Fence(tag, body));
    LinesHaveNoBreaks(Fence(tag, body));
    JoinOnlyNewlines(lines[1..]);
    JoinOnlyNewlines(if |lines| >= 2 then lines[1..|lines| - 1] else []);
  }

  /** Stripping undoes fencing, under any surrounding whitespace, exactly when the body breaks its
      lines with plain newlines only. */
  lemma StripUndoesFenceIff(pre: string, tag: string, body: string, post: string)
    requires AllSpace(pre) && AllSpace(post) && NoBreaks(tag)
    ensures StripFence(pre + Fence(tag, body) + post) == body <==> OnlyNewlines(body)
  {
    StrippedHasOnlyNewlines(pre, tag, body, post);
    if OnlyNewlines(body) {
      PlainBodyComesBack(pre, tag, body, post);
    }
  }

  // ----- Replies without a closed fence -----

  lemma {:induction false} StripLeftAll(s: string)
    requires AllSpace(s)
    ensures StripLeft(s) == ""
  {
    if s == "" {
    } else {
      StripLeftAll(s[1..]);
    }
  }

  /** A reply that does not begin with a fence comes back as it is, without the whitespace around it. */
  lemma PlainTextComesBack(pre: string, text: string, post: string)
    requires AllSpace(pre) && AllSpace(post) && !(TICKS <= text)
    requires text != "" ==> !IsSpace(text[0]) && !IsSpace(text[|text| - 1])
    ensures StripFence(pre + text + post) == text
  {
    if text == "" {
      assert AllSpace(pre + text + post);
      StripLeftAll(pre + text + post);
    } else {
      StripSurrounding(pre, text, post);
    }
  }

  /** The last line of s is three backticks, with or without whitespace around them. */
  ghost predicate EndsWithFence(s: string) {
    exists i :: 0 <= i <= |s| && (i == 0 || s[i - 1] == '\n') && '\n' !in s[i..] && Strip(s[i..]) == TICKS
  }

  lemma {:induction false} SplitPlain(body: string)
    requires OnlyNewlines(body) && body != "" && body[|body| - 1] != '\n'
    ensures SplitLines(body) == SplitNewlines(body)
    decreases |body|
  {
    if '\n' !in body {
      PlainLine(body);
      OneLine(body);
    } else {
      var n := IndexOf(body, '\n');
      PlainLine(body[..n]);
      SplitPlain(body[n + 1..]);
      SplitAtNewline(body, n);
      BreakApart(body, n);
      SplitFirstLine(body[..n], body[n + 1..]);
    }
  }

  lemma SplitAtNewline(body: string, n: nat)
    requires '\n' in body && n == IndexOf(body, '\n')
    ensures SplitNewlines(body) == [body[..n]] + SplitNewlines(body[n + 1..])
  {
  }

  lemma BreakApart(s: string, n: nat)
    requires n < |s| && s[n] == '\n'
    ensures s == s[..n] + ("\n" + s[n + 1..])
  {
  }

  lemma {:induction false} LastLine(body: string) returns (i: nat)
    ensures i <= |body| && (i == 0 || body[i - 1] == '\n') && '\n' !in body[i..]
    ensures SplitNewlines(body)[|SplitNewlines(body)| - 1] == body[i..]
    decreases |body|
  {
    if '\n' !in body {
      i := 0;
      assert body[0..] == body;
    } else {
      var n := IndexOf(body, '\n');
      var j := LastLine(body[n + 1..]);
      i := n + 1 + j;
      SuffixOfSuffix(body, n + 1, j);
      LastOfSplit(body, n);
    }
  }

  lemma SuffixOfSuffix(s: string, n: nat, j: nat)
    requires n <= |s| && j <= |s| - n
    ensures s[n..][j..] == s[n + j..] && (j > 0 ==> s[n..][j - 1] == s[n + j - 1])
  {
  }

  lemma LastOfSplit(s: string, n: nat)
    requires '\n' in s && n == IndexOf(s, '\n')
    ensures SplitNewlines(s)[|SplitNewlines(s)| - 1] == SplitNewlines(s[n + 1..])[|SplitNewlines(s[n + 1..])| - 1]
  {
    SplitAtNewline(s, n);
  }

  lemma OpenFenceLines(pre: string, open: string, body: string, post: string)
    requires AllSpace(pre) && AllSpace(post) && NoBreaks(open) && body != "" && !IsSpace(body[|body| - 1])
    requires TICKS <= open
    ensures Strip(pre + (open + ("\n" + body)) + post) == open + ("\n" + body)
    ensures TICKS <= open + ("\n" + body)
    ensures SplitLines(open + ("\n" + body)) == [open] + SplitLines(body)
  {
    var text := open + ("\n" + body);
    assert text[0] == open[0] == TICKS[0] && text[|text| - 1] == body[|body| - 1];
    StripSurrounding(pre, text, post);
    SplitFirstLine(open, body);
  }

  /** An opening fence that nothing closes is dropped alone: the lines after it come back. */
  lemma UnclosedFenceComesBack(pre: string, tag: string, body: string, post: string)
    requires AllSpace(pre) && AllSpace(post) && NoBreaks(tag) && OnlyNewlines(body)
    requires body != "" && !IsSpace(body[|body| - 1]) && !EndsWithFence(body)
    ensures StripFence(pre + (TICKS + tag + ("\n" + body)) + post) == body
  {
    OpenFenceLines(pre, TICKS + tag, body, post);
    SplitPlain(body);
    JoinInvertsSplit(body);
    var i := LastLine(body);
    UnclosedLines(SplitLines(TICKS + tag + ("\n" + body)), TICKS + tag, SplitNewlines(body), body[i..]);
  }

  lemma UnclosedLines(lines: seq<string>, open: string, rest: seq<string>, last: string)
    requires lines == [open] + rest && rest != [] && rest[|rest| - 1] == last
    ensures lines[1..] == rest && lines[|lines| - 1] == last
  {
  }

  /** A closing fence may be indented. */
  lemma IndentedFenceCloses(pre: string, tag: string, body: string, indent: string, post: string)
    requires AllSpace(pre) && AllSpace(post) && NoBreaks(tag) && OnlyNewlines(body)
    requires AllSpace(indent) && NoBreaks(indent)
    ensures StripFence(pre + (TICKS + tag + ("\n" + (body + ("\n" + (indent + TICKS))))) + post) == body
  {
    var close := indent + TICKS;
    var rest := body + ("\n" + close);
    assert rest[|rest| - 1] == '`';
    OpenFenceLines(pre, TICKS + tag, rest, post);
    assert NoBreaks(close);
    assert SplitLines(close) == [close] by { OneLine(close); }
    StripSurrounding(indent, TICKS, "");
    assert indent + TICKS + "" == close;
    SplitClosedBody(body, close);
    JoinInvertsSplit(body);
    var lines := SplitLines(TICKS + tag + ("\n" + rest));
    assert lines == [TICKS + tag] + SplitNewlines(body) + [close];
    assert lines[1..|lines| - 1] == SplitNewlines(body);
  }

  lemma {:induction false} OneLine(line: string)
    requires NoBreaks(line) && line != ""
    ensures SplitLines(line) == [line]
  {
    assert LineEnd(line) == |line|;
  }

  /** A fence line alone leaves nothing. */
  lemma LoneFence(pre: string, tag: string, post: string)
    requires AllSpace(pre) && AllSpace(post) && NoBreaks(tag) && (tag != "" ==> !IsSpace(tag[|tag| - 1]))
    ensures StripFence(pre + (TICKS + tag) + post) == ""
  {
    var text := TICKS + tag;
    assert text[0] == '`' && text[|text| - 1] == if tag == "" then '`' else tag[|tag| - 1];
    StripSurrounding(pre, text, post);
    OneLine(text);
  }

  /** Every whitespace character and every line break, by code point. */
  lemma SpacesListed(c: char)
    ensures IsSpace(c) <==>
              c as int in {0x9, 0xA, 0xB, 0xC, 0xD, 0x1C, 0x1D, 0x1E, 0x1F, 0x20, 0x85, 0xA0, 0x1680, 0x2000, 0x2001, 0x2002,
                           0x2003, 0x2004, 0x2005, 0x2006, 0x2007, 0x2008, 0x2009, 0x200A, 0x2028, 0x2029, 0x202F, 0x205F,
                           0x3000}
    ensures IsBreak(c) <==> c as int in {0xA, 0xB, 0xC, 0xD, 0x1C, 0x1D, 0x1E, 0x85, 0x2028, 0x2029}
  {
  }

  /** The whitespace of JSON is stripped, and a line break counts as whitespace. */
  lemma SpacesAndBreaks(c: char)
    ensures c == ' ' || c == '\t' || c == '\n' || c == '\r' ==> IsSpace(c)
    ensures c == '\n' || c == '\r' ==> IsBreak(c)
    ensures IsBreak(c) ==> IsSpace(c)
    ensures '!' <= c <= '~' ==> !IsSpace(c)
  {
  }
}
