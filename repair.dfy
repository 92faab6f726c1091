/** The best-effort repair of a streamed, possibly truncated JSON text (`naiveJsonRepair` in
    services/geminiService.ts): trim, drop a leading code-fence marker, scan the text tracking
    string literals, escapes and a stack of open brackets, then append the missing closers. */
module JsonRepair {
  import Seqs

  // ---------------------------------------------------------------- trimming

  /** The characters `String.prototype.trim` removes: ECMAScript WhiteSpace (tab, vertical tab,
      form feed, space, no-break space, byte-order mark and the Unicode space separators) and
      LineTerminator (line feed, carriage return, line and paragraph separator). */
  predicate IsJsWhitespace(c: char) {
    c == '\t' || c == '\n' || c == '\U{000B}' || c == '\U{000C}' || c == '\r' || c == ' '
    || c == '\U{00A0}' || c == '\U{1680}' || ('\U{2000}' <= c <= '\U{200A}')
    || c == '\U{2028}' || c == '\U{2029}' || c == '\U{202F}' || c == '\U{205F}'
    || c == '\U{3000}' || c == '\U{FEFF}'
  }

  /** `trimStart`. What it removes is stated by `TrimStartRemovesLeadingSpace`. */
  function TrimStart(s: string): (r: string)
    ensures |r| <= |s|
  {
    if s != [] && IsJsWhitespace(s[0]) then TrimStart(s[1..]) else s
  }

  /** `trimEnd`. What it removes is stated by `TrimEndRemovesTrailingSpace`. */
  function TrimEnd(s: string): (r: string)
    ensures |r| <= |s|
  {
    if s != [] && IsJsWhitespace(s[|s| - 1]) then TrimEnd(s[..|s| - 1]) else s
  }

  /** The number of white-space characters `Trim` removes from the front of `s`. */
  function LeadingSpace(s: string): nat {
    |s| - |TrimStart(s)|
  }

  /** `String.prototype.trim`. What it removes is stated by `TrimRemovesSurroundingSpace`. */
  function Trim(s: string): (r: string)
    ensures |r| <= |s|
  {
    TrimEnd(TrimStart(s))
  }

  /** `TrimStart` removes white space only, and all of it up to the first other character. */
  lemma {:induction false} TrimStartRemovesLeadingSpace(s: string)
    ensures var r := TrimStart(s);
            && r == s[|s| - |r|..]
            && (forall k :: 0 <= k < |s| - |r| ==> IsJsWhitespace(s[k]))
            && (r != [] ==> !IsJsWhitespace(r[0]))
  {
    if s != [] && IsJsWhitespace(s[0]) {
      TrimStartRemovesLeadingSpace(s[1..]);
    }
  }

  /** `TrimEnd` removes white space only, and all of it back to the last other character. */
  lemma {:induction false} TrimEndRemovesTrailingSpace(s: string)
    ensures var r := TrimEnd(s);
            && r == s[..|r|]
            && (forall k :: |r| <= k < |s| ==> IsJsWhitespace(s[k]))
            && (r != [] ==> !IsJsWhitespace(r[|r| - 1]))
  {
    if s != [] && IsJsWhitespace(s[|s| - 1]) {
      TrimEndRemovesTrailingSpace(s[..|s| - 1]);
    }
  }

  /** `Trim` yields the slice of `s` between its leading and its trailing white space. */
  lemma TrimRemovesSurroundingSpace(s: string)
    ensures var r := Trim(s);
            && LeadingSpace(s) + |r| <= |s| && r == s[LeadingSpace(s)..LeadingSpace(s) + |r|]
            && (forall k :: 0 <= k < LeadingSpace(s) ==> IsJsWhitespace(s[k]))
            && (forall k :: LeadingSpace(s) + |r| <= k < |s| ==> IsJsWhitespace(s[k]))
            && (r != [] ==> !IsJsWhitespace(r[0]) && !IsJsWhitespace(r[|r| - 1]))
  {
    var t := TrimStart(s);
    TrimStartRemovesLeadingSpace(s);
    TrimEndRemovesTrailingSpace(t);
    var r := TrimEnd(t);
    assert r == s[LeadingSpace(s)..LeadingSpace(s) + |r|];
    forall k | LeadingSpace(s) + |r| <= k < |s| ensures IsJsWhitespace(s[k]) {
      assert s[k] == t[k - LeadingSpace(s)];
    }
  }

  // ---------------------------------------------------------------- code fences

  const FENCE: string := "```"
  const JSON_FENCE: string := "```json"

  predicate HasPrefix(s: string, p: string) {
    |p| <= |s| && s[..|p|] == p
  }

  predicate HasSuffix(s: string, p: string) {
    |p| <= |s| && s[|s| - |p|..] == p
  }

  /** The two anchored replacements of `naiveJsonRepair`: "```json" is dropped from the front
      if present, and then "```" is dropped from the front of what remains if present. */
  function StripFence(t: string): (r: string)
    ensures |r| <= |t| && r == t[|t| - |r|..]
    ensures |t| - |r| in {0, 3, 7, 10}
    ensures !HasPrefix(t, FENCE) ==> r == t
    ensures |t| >= 13 && HasSuffix(t, FENCE) ==> HasSuffix(r, FENCE)
    // what is dropped is nothing, or one or two markers: "```json" first, then "```"
    ensures t[..|t| - |r|] in {"", FENCE, JSON_FENCE, JSON_FENCE + FENCE}
    // a leading marker is always dropped, and a leading "```json" as a whole
    ensures HasPrefix(t, FENCE) ==> |r| < |t|
    ensures HasPrefix(t, JSON_FENCE) ==> HasPrefix(t[..|t| - |r|], JSON_FENCE)
    // and a "```" right after a leading "```json" goes too
    ensures HasPrefix(t, JSON_FENCE + FENCE) ==> |t| - |r| == 10
  {
    var a := if HasPrefix(t, JSON_FENCE) then t[|JSON_FENCE|..] else t;
    assert HasPrefix(t, JSON_FENCE) ==> HasPrefix(t, FENCE);
    assert HasPrefix(t, JSON_FENCE) && HasPrefix(a, FENCE) ==> t[..10] == t[..7] + a[..3];
    assert HasPrefix(t, JSON_FENCE + FENCE) ==> t[..7] == JSON_FENCE && a[..3] == t[7..10];
    if HasPrefix(a, FENCE) then a[|FENCE|..] else a
  }

  /** The text the scan runs over: trimmed, with the leading fence markers dropped. */
  function Prepared(s: string): string {
    StripFence(Trim(s))
  }

  // ---------------------------------------------------------------- the scan

  /** The scan's state: inside a string literal?, is the next character escaped?, and the stack
      of brackets opened and not yet closed (last element = most recently opened). */
  datatype ScanState = ScanState(inString: bool, escaped: bool, stack: seq<char>)

  const START: ScanState := ScanState(false, false, [])

  predicate IsOpener(c: char) {
    c == '{' || c == '['
  }

  predicate AllOpeners(s: seq<char>) {
    forall k :: 0 <= k < |s| ==> IsOpener(s[k])
  }

  /** `close` is the closer of the bracket `open`. */
  predicate Matches(open: char, close: char) {
    (open == '{' && close == '}') || (open == '[' && close == ']')
  }

  /** One iteration of the scanning loop on character `c`; `StepCases` states its effect. */
  function Step(st: ScanState, c: char): ScanState {
    if st.escaped then st.(escaped := false)
    else if c == '\\' then st.(escaped := true)
    else if c == '"' then st.(inString := !st.inString)
    else if st.inString then st
    else if IsOpener(c) then st.(stack := st.stack + [c])
    else if (c == '}' || c == ']') && |st.stack| > 0 && Matches(st.stack[|st.stack| - 1], c)
    then st.(stack := st.stack[..|st.stack| - 1])
    else st
  }

  /** What one step of the scan does. */
  lemma StepCases(st: ScanState, c: char)
    ensures var r := Step(st, c);
            // the character after a backslash is consumed whatever it is, in or out of a string
            && (st.escaped ==> r == st.(escaped := false))
            // inside a string literal, or right after a backslash, no character changes the stack
            && (st.escaped || st.inString ==> r.stack == st.stack)
            // the stack changes only by pushing an opener or popping the opener a closer matches
            && (|| r.stack == st.stack
                || (IsOpener(c) && r.stack == st.stack + [c])
                || (|st.stack| > 0 && Matches(st.stack[|st.stack| - 1], c)
                    && r.stack == st.stack[..|st.stack| - 1]))
            // a closer that does not match the top (or meets an empty stack) changes nothing
            && ((!st.escaped && !st.inString && (c == '}' || c == ']')
                 && (st.stack == [] || !Matches(st.stack[|st.stack| - 1], c))) ==> r == st)
            // an unescaped quote toggles the string flag; nothing else does
            && (r.inString != st.inString <==> !st.escaped && c == '"')
  {
  }

  /** The scan of `t` started in state `st`, one character at a time from the left. */
  function Run(st: ScanState, t: string): ScanState
    decreases |t|
  {
    if t == [] then st else Step(Run(st, t[..|t| - 1]), t[|t| - 1])
  }

  function Scan(t: string): ScanState {
    Run(START, t)
  }

  /** The stack only ever holds openers. */
  lemma {:induction false} RunKeepsOpeners(st: ScanState, t: string)
    requires AllOpeners(st.stack)
    ensures AllOpeners(Run(st, t).stack)
    decreases |t|
  {
    if t != [] {
      RunKeepsOpeners(st, t[..|t| - 1]);
      var before := Run(st, t[..|t| - 1]);
      var c := t[|t| - 1];
      if !before.escaped && !before.inString && IsOpener(c) {
        assert Step(before, c).stack == before.stack + [c];
      }
    }
  }

  // ---------------------------------------------------------------- closing

  /** Scanning one character further extends the scan by one step. */
  lemma ScanPrefixStep(t: string, i: nat)
    requires i < |t|
    ensures Scan(t[..i + 1]) == Step(Scan(t[..i]), t[i])
  {
    assert t[..i + 1][..i] == t[..i];
  }

  /** The closer appended for a popped stack entry; an entry that is no opener adds nothing. */
  function CloseFor(open: char): string {
    if open == '{' then "}" else if open == '[' then "]" else ""
  }

  /** The closers the final loop appends while popping `stack` empty. */
  function Closers(stack: seq<char>): (r: string)
    ensures forall k :: 0 <= k < |r| ==> r[k] == '}' || r[k] == ']'
    // one closer per opener, the most recently opened closed first
    ensures AllOpeners(stack) ==>
              |r| == |stack| && forall k :: 0 <= k < |r| ==> Matches(stack[|stack| - 1 - k], r[k])
  {
    if stack == [] then [] else CloseFor(stack[|stack| - 1]) + Closers(stack[..|stack| - 1])
  }

  /** What `naiveJsonRepair` returns, as a function of its input. */
  function Repaired(s: string): string {
    var m := Prepared(s);
    m + Closers(Scan(m).stack)
  }

  /** `naiveJsonRepair`. It has no precondition: it returns for every input. */
  method NaiveJsonRepair(jsonStr: string) returns (repaired: string)
    ensures repaired == Repaired(jsonStr)
    // the prepared text is kept character for character ...
    ensures |Prepared(jsonStr)| <= |repaired| && repaired[..|Prepared(jsonStr)|] == Prepared(jsonStr)
    // ... and what follows it is closers only, one per bracket left open
    ensures forall k :: |Prepared(jsonStr)| <= k < |repaired| ==> repaired[k] == '}' || repaired[k] == ']'
    ensures |repaired| == |Prepared(jsonStr)| + |Scan(Prepared(jsonStr)).stack|
  {
    // trim, then drop the leading fence markers
    var modified := Prepared(jsonStr);

    var stack: seq<char> := [];
    var inString := false;
    var isEscaped := false;
    for i := 0 to |modified|
      invariant ScanState(inString, isEscaped, stack) == Scan(modified[..i])
    {
      var ch := modified[i];
      ScanPrefixStep(modified, i);
      ghost var before := ScanState(inString, isEscaped, stack);
      if isEscaped {
        isEscaped := false;
      } else if ch == '\\' {
        isEscaped := true;
      } else if ch == '"' {
        inString := !inString;
      } else if !inString {
        if ch == '{' || ch == '[' {
          stack := stack + [ch];
        } else if ch == '}' {
          if |stack| > 0 && stack[|stack| - 1] == '{' {
            stack := stack[..|stack| - 1];
          }
        } else if ch == ']' {
          if |stack| > 0 && stack[|stack| - 1] == '[' {
            stack := stack[..|stack| - 1];
          }
        }
      }
      assert ScanState(inString, isEscaped, stack) == Step(before, ch);
    }
    assert modified[..|modified|] == modified;

    RunKeepsOpeners(START, modified);
    repaired := AppendClosers(modified, stack);
  }

  /** The final loop of `naiveJsonRepair`: pop the stack empty, appending a closer per entry. */
  method AppendClosers(text: string, unclosed: seq<char>) returns (repaired: string)
    ensures repaired == text + Closers(unclosed)
  {
    var stack := unclosed;
    repaired := text;
    while |stack| > 0
      invariant repaired + Closers(stack) == text + Closers(unclosed)
      decreases |stack|
    {
      var open := stack[|stack| - 1];
      ghost var before := repaired;
      stack := stack[..|stack| - 1];
      if open == '{' {
        repaired := repaired + "}";
      }
      if open == '[' {
        repaired := repaired + "]";
      }
      assert repaired == before + CloseFor(open);
      Seqs.AppendAssoc(before, CloseFor(open), Closers(stack));
    }
  }

  // ---------------------------------------------------------------- properties of the scan

  /** Scanning a concatenation is scanning the second part from where the first left off. */
  lemma {:induction false} RunAppend(st: ScanState, a: string, b: string)
    ensures Run(st, a + b) == Run(Run(st, a), b)
    decreases |b|
  {
    if b == [] {
      assert a + b == a;
    } else {
      var b' := b[..|b| - 1];
      assert (a + b)[..|a + b| - 1] == a + b';
      assert (a + b)[|a + b| - 1] == b[|b| - 1];
      RunAppend(st, a, b');
    }
  }

  lemma RunCons(st: ScanState, c: char, t: string)
    ensures Run(st, [c] + t) == Run(Step(st, c), t)
  {
    RunAppend(st, [c], t);
    assert [c][..0] == [];
  }

  /** The body of a JSON string literal in the sense of section 7 of RFC 8259, for the scan's
      purposes: characters other than quote and backslash, and backslash-escaped pairs. */
  predicate StringBody(body: string)
    decreases |body|
  {
    body == []
    || (body[0] != '"' && body[0] != '\\' && StringBody(body[1..]))
    || (|body| >= 2 && body[0] == '\\' && StringBody(body[2..]))
  }

  /** Inside a string literal, brackets (escaped quotes included) leave the scan state as it was. */
  lemma {:induction false} StringBodyInert(st: ScanState, body: string)
    requires st.inString && !st.escaped && StringBody(body)
    ensures Run(st, body) == st
    decreases |body|
  {
    if body != [] {
      if body[0] != '"' && body[0] != '\\' && StringBody(body[1..]) {
        assert body == [body[0]] + body[1..];
        RunCons(st, body[0], body[1..]);
        StringBodyInert(st, body[1..]);
      } else {
        assert body == [body[0]] + ([body[1]] + body[2..]);
        RunCons(st, body[0], [body[1]] + body[2..]);
        RunCons(st.(escaped := true), body[1], body[2..]);
        StringBodyInert(st, body[2..]);
      }
    }
  }

  /** A whole string literal, whatever brackets it contains, does not change the nesting. */
  lemma StringLiteralInert(st: ScanState, body: string)
    requires !st.inString && !st.escaped && StringBody(body)
    ensures Run(st, ['"'] + body + ['"']) == st
  {
    var inside := st.(inString := true);
    RunAppend(st, ['"'] + body, ['"']);
    RunCons(st, '"', body);
    StringBodyInert(inside, body);
    assert ['"'][..0] == [];
  }

  /** From a state outside any string and escape, the closers of its stack close everything. */
  lemma {:induction false} ClosersCloseAll(st: ScanState)
    requires !st.inString && !st.escaped && AllOpeners(st.stack)
    ensures Run(st, Closers(st.stack)) == START
    decreases |st.stack|
  {
    if st.stack != [] {
      var n := |st.stack|;
      var rest := ScanState(false, false, st.stack[..n - 1]);
      var c := CloseFor(st.stack[n - 1]);
      assert |c| == 1 && c == [c[0]];
      assert Step(st, c[0]) == rest;
      RunCons(st, c[0], Closers(rest.stack));
      ClosersCloseAll(rest);
    }
  }

  /** When the scan of the prepared text ends outside a string literal and not right after a
      backslash, scanning the repaired text ends with every bracket closed. */
  lemma RescanRepairedIsBalanced(s: string)
    requires !Scan(Prepared(s)).inString && !Scan(Prepared(s)).escaped
    ensures Scan(Repaired(s)) == START
  {
    var m := Prepared(s);
    RunAppend(START, m, Closers(Scan(m).stack));
    RunKeepsOpeners(START, m);
    ClosersCloseAll(Scan(m));
  }

  /** The condition on the escape flag is needed: for the text `{\` the appended `}` is
      consumed as an escaped character, and the rescan still has `{` open. */
  lemma TrailingBackslashSwallowsCloser()
    ensures !Scan(Prepared("{\\")).inString && Scan(Prepared("{\\")).escaped
    ensures Repaired("{\\") == "{\\}"
    ensures Scan(Repaired("{\\")).stack == ['{']
  {
    var s := "{\\";
    assert TrimStart(s) == s && TrimEnd(s) == s;
    assert Prepared(s) == s;
    ScanPrefixStep(s, 0);
    ScanPrefixStep(s, 1);
    assert s[..0] == [] && s[..2] == s;
    assert Scan(s) == ScanState(false, true, ['{']);
    var r := "{\\}";
    assert Closers(['{']) == "}";
    assert Repaired(s) == r;
    ScanPrefixStep(r, 2);
    assert r[..2] == s && r[..3] == r;
  }
}
