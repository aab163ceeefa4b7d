/** The end-of-value scanner for partially read JSON records. */
module JsonScanner {
  import opened Options

  // ---- what the scanner looks at ----

  /** Outside a string, inside one, or just after a backslash inside one. */
  datatype Mode = Plain | InString | Escaped

  function Next(mode: Mode, c: char): Mode {
    match mode
    case Plain => if c == '"' then InString else Plain
    case InString => if c == '\\' then Escaped else if c == '"' then Plain else InString
    case Escaped => InString
  }

  function EndMode(s: string, mode: Mode): Mode {
    if s == "" then mode else EndMode(s[1..], Next(mode, s[0]))
  }

  predicate IsOpen(c: char) { c == '[' || c == '{' }
  predicate IsClose(c: char) { c == ']' || c == '}' }
  function CloseOf(c: char): char { if c == '[' then ']' else '}' }

  /** The brackets of `s` that stand outside strings, in order. */
  function Brackets(s: string, mode: Mode): string {
    if s == "" then ""
    else (if mode == Plain && (IsOpen(s[0]) || IsClose(s[0])) then [s[0]] else "") + Brackets(s[1..], Next(mode, s[0]))
  }

  lemma {:induction false} ScanConcat(a: string, b: string, mode: Mode)
    ensures EndMode(a + b, mode) == EndMode(b, EndMode(a, mode))
    ensures Brackets(a + b, mode) == Brackets(a, mode) + Brackets(b, EndMode(a, mode))
  {
    hide IsOpen, IsClose, Next;
    if a == "" {
      assert a + b == b;
    } else {
      assert (a + b)[1..] == a[1..] + b;
      ScanConcat(a[1..], b, Next(mode, a[0]));
    }
  }

  // ---- balanced brackets, as trees ----

  datatype Forest = Empty | Tree(opening: char, inside: Forest, rest: Forest)

  ghost predicate Wf(f: Forest) {
    f.Tree? ==> IsOpen(f.opening) && Wf(f.inside) && Wf(f.rest)
  }

  function Flatten(f: Forest): string {
    match f
    case Empty => ""
    case Tree(o, inside, rest) => [o] + Flatten(inside) + [CloseOf(o)] + Flatten(rest)
  }

  /** One bracket pair around a balanced inside. */
  ghost predicate Encloses(bs: string) {
    exists o, inside :: IsOpen(o) && Wf(inside) && bs == [o] + Flatten(inside) + [CloseOf(o)]
  }

  /** The span `text[start..end]` is one bracketed value: outside its strings the brackets match up as one
      pair around a balanced inside, and its last character is that pair's closing bracket. */
  ghost predicate Closes(text: string, start: nat, end: nat) {
    && start < end <= |text|
    && Encloses(Brackets(text[start..end], Plain))
    && EndMode(text[start..end - 1], Plain) == Plain && IsClose(text[end - 1])
  }

  // ---- the stack machine ----

  /** Feeds brackets to a stack of awaited closing brackets; anything after the stack ran empty is refused. */
  function Run(stack: string, bs: string): Option<string>
    decreases |bs|
  {
    if bs == "" then Some(stack)
    else if stack == "" then None
    else if IsOpen(bs[0]) then Run(stack + [CloseOf(bs[0])], bs[1..])
    else if bs[0] == stack[|stack| - 1] then Run(stack[..|stack| - 1], bs[1..])
    else None
  }

  lemma {:induction false} RunConcat(stack: string, a: string, b: string)
    ensures Run(stack, a + b) == (match Run(stack, a) case Some(t) => Run(t, b) case None => None)
    decreases |a|
  {
    if a == "" {
      assert a + b == b;
    } else {
      assert (a + b)[1..] == a[1..] + b;
      if stack != "" {
        if IsOpen(a[0]) {
          RunConcat(stack + [CloseOf(a[0])], a[1..], b);
        } else if a[0] == stack[|stack| - 1] {
          RunConcat(stack[..|stack| - 1], a[1..], b);
        }
      }
    }
  }

  lemma RunOpening(stack: string, o: char, bs: string)
    requires stack != "" && IsOpen(o)
    ensures Run(stack, [o] + bs) == Run(stack + [CloseOf(o)], bs)
  {
    assert ([o] + bs)[1..] == bs;
  }

  lemma RunClosing(stack: string, c: char, bs: string)
    requires !IsOpen(c)
    ensures Run(stack + [c], [c] + bs) == Run(stack, bs)
  {
    assert ([c] + bs)[1..] == bs;
    assert (stack + [c])[..|stack + [c]| - 1] == stack;
  }

  lemma TreeThen(o: char, inside: Forest, rest: Forest, bs: string)
    ensures Flatten(Tree(o, inside, rest)) + bs == [o] + (Flatten(inside) + ([CloseOf(o)] + (Flatten(rest) + bs)))
  {
  }

  /** Balanced brackets leave the stack as they found it. */
  lemma {:induction false} RunBalanced(stack: string, f: Forest, bs: string)
    requires stack != "" && Wf(f)
    ensures Run(stack, Flatten(f) + bs) == Run(stack, bs)
    decreases f
  {
    hide Run;
    match f
    case Empty =>
      assert "" + bs == bs;
    case Tree(o, inside, rest) =>
      hide Flatten;
      var c := CloseOf(o);
      var afterClose := Flatten(rest) + bs;
      TreeThen(o, inside, rest, bs);
      RunOpening(stack, o, Flatten(inside) + ([c] + afterClose));
      RunBalanced(stack + [c], inside, [c] + afterClose);
      RunClosing(stack, c, afterClose);
      RunBalanced(stack, rest, bs);
  }

  lemma TreeText(o: char, f1: Forest, f2: Forest, c: char, rest: string)
    ensures [o] + (Flatten(f1) + [CloseOf(o)] + (Flatten(f2) + [c] + rest)) == Flatten(Tree(o, f1, f2)) + [c] + rest
  {
  }

  /** If the machine gets down to `|stack|` or below from `stack + [c]`, then it does so after a balanced
      run followed by `c`. */
  lemma {:induction false} Descend(stack: string, c: char, bs: string) returns (f: Forest, rest: string)
    requires Run(stack + [c], bs).Some? && |Run(stack + [c], bs).value| <= |stack|
    ensures Wf(f) && bs == Flatten(f) + [c] + rest
    ensures Run(stack + [c], bs) == Run(stack, rest)
    decreases |bs|
  {
    hide Run, Flatten, IsOpen, CloseOf;
    RunStep(stack, c, bs);
    var tail := bs[1..];
    if IsOpen(bs[0]) {
      var c1 := CloseOf(bs[0]);
      var f1, rest1 := Descend(stack + [c], c1, tail);
      var f2, rest2 := Descend(stack, c, rest1);
      f, rest := Tree(bs[0], f1, f2), rest2;
      assert bs == [bs[0]] + tail;
      TreeText(bs[0], f1, f2, c, rest2);
    } else {
      f, rest := Empty, tail;
      EmptyText(c, tail);
      assert bs == [c] + tail;
    }
  }

  /** One bracket fed to a stack that ends in `c`. */
  lemma RunStep(stack: string, c: char, bs: string)
    requires Run(stack + [c], bs).Some? && |Run(stack + [c], bs).value| <= |stack|
    ensures bs != ""
    ensures if IsOpen(bs[0]) then Run(stack + [c], bs) == Run(stack + [c] + [CloseOf(bs[0])], bs[1..])
            else bs[0] == c && Run(stack + [c], bs) == Run(stack, bs[1..])
  {
    var full := stack + [c];
    assert full[|full| - 1] == c && full[..|full| - 1] == stack;
  }

  lemma EmptyText(c: char, tail: string)
    ensures Flatten(Empty) + [c] + tail == [c] + tail
  {
  }

  /** The stack machine recognises exactly one pair around a balanced inside. */
  lemma EnclosesIffRun(bs: string)
    ensures Encloses(bs) <==> bs != "" && IsOpen(bs[0]) && Run([CloseOf(bs[0])], bs[1..]) == Some("")
  {
    hide Run, Flatten;
    if Encloses(bs) {
      var o, inside :| IsOpen(o) && Wf(inside) && bs == [o] + Flatten(inside) + [CloseOf(o)];
      PairRuns(o, inside);
      assert bs[1..] == Flatten(inside) + [CloseOf(o)];
    }
    if bs != "" && IsOpen(bs[0]) && Run([CloseOf(bs[0])], bs[1..]) == Some("") { RunIsPair(bs); }
  }

  lemma PairRuns(o: char, inside: Forest)
    requires IsOpen(o) && Wf(inside)
    ensures Run([CloseOf(o)], Flatten(inside) + [CloseOf(o)]) == Some("")
  {
    RunBalanced([CloseOf(o)], inside, [CloseOf(o)]);
    hide Flatten;
    RunClosing("", CloseOf(o), "");
    assert "" + [CloseOf(o)] == [CloseOf(o)] && [CloseOf(o)] + "" == [CloseOf(o)];
  }

  lemma RunIsPair(bs: string)
    requires bs != "" && IsOpen(bs[0]) && Run([CloseOf(bs[0])], bs[1..]) == Some("")
    ensures Encloses(bs)
  {
    hide Flatten;
    var c := CloseOf(bs[0]);
    assert "" + [c] == [c];
    var f, rest := Descend("", c, bs[1..]);
    assert rest == "";
    assert bs == [bs[0]] + Flatten(f) + [c];
  }

  // ---- the scalar pattern  null|true|false|"(?:\\.|[^"\\])*"  ----

  /** The offset just after the closing quote of a string whose opening quote is behind `i`;
      the pattern's dot does not match a line feed. */
  function StringEnd(text: string, i: nat): Option<nat>
    decreases |text| - i
  {
    if i >= |text| then None
    else if text[i] == '"' then Some(i + 1)
    else if text[i] == '\\' then
      (if i + 1 < |text| && text[i + 1] != '\n' then StringEnd(text, i + 2) else None)
    else StringEnd(text, i + 1)
  }

  predicate StartsWith(text: string, start: nat, word: string)
    requires start <= |text|
  {
    start + |word| <= |text| && text[start..start + |word|] == word
  }

  function ScalarEnd(text: string, start: nat): Option<nat>
    requires start < |text|
  {
    if StartsWith(text, start, "null") then Some(start + 4)
    else if StartsWith(text, start, "true") then Some(start + 4)
    else if StartsWith(text, start, "false") then Some(start + 5)
    else if text[start] == '"' then StringEnd(text, start + 1)
    else None
  }

  /** What may stand between the quotes: escapes of any character but a line feed, and characters other than quotes
      and backslashes. */
  predicate IsQuoted(s: string) {
    s == ""
    || (if s[0] == '\\' then |s| >= 2 && s[1] != '\n' && IsQuoted(s[2..]) else s[0] != '"' && IsQuoted(s[1..]))
  }

  /** The texts the scalar pattern matches. */
  predicate IsScalar(s: string) {
    s in {"null", "true", "false"}
    || (|s| >= 2 && s[0] == '"' && s[|s| - 1] == '"' && IsQuoted(s[1..|s| - 1]))
  }

  lemma {:induction false} StringEndIff(text: string, i: nat, end: nat)
    ensures StringEnd(text, i) == Some(end) <==>
      i < end <= |text| && text[end - 1] == '"' && IsQuoted(text[i..end - 1])
    decreases |text| - i
  {
    if i < |text| && text[i] != '"' {
      var next := if text[i] == '\\' then i + 2 else i + 1;
      StringEndIff(text, next, end);
      if i < end - 1 && end <= |text| {
        var q := text[i..end - 1];
        assert q[0] == text[i] && q[1..] == text[i + 1..end - 1];
        if next <= end - 1 { assert q[next - i..] == text[next..end - 1]; }
        if i + 1 < end - 1 { assert q[1] == text[i + 1]; }
      }
    } else if i < |text| && i < end - 1 < |text| {
      assert text[i..end - 1][0] == '"';
    }
  }

  lemma WordEnd(text: string, start: nat, word: string, end: nat)
    requires start <= end <= |text|
    ensures text[start..end] == word <==> StartsWith(text, start, word) && end == start + |word|
  {
  }

  /** The scalar branch finds an end exactly where the text up to it is a scalar: in particular none for a string that
      is cut off, and at most one. */
  lemma ScalarEndIff(text: string, start: nat, end: nat)
    requires start < |text|
    ensures ScalarEnd(text, start) == Some(end) <==> start < end <= |text| && IsScalar(text[start..end])
  {
    if start < end <= |text| {
      var s := text[start..end];
      WordEnd(text, start, "null", end);
      WordEnd(text, start, "true", end);
      WordEnd(text, start, "false", end);
      assert s[0] == text[start] && s[|s| - 1] == text[end - 1];
      if |s| >= 2 { InnerSlice(text, start, end); }
    }
    HeadOfWord(text, start);
    hide IsQuoted, StringEnd, StartsWith;
    StringEndIff(text, start + 1, end);
  }

  lemma InnerSlice(text: string, start: nat, end: nat)
    requires start + 2 <= end <= |text|
    ensures var s := text[start..end]; s[1..|s| - 1] == text[start + 1..end - 1]
  {
    var s := text[start..end];
    var inner, same := s[1..|s| - 1], text[start + 1..end - 1];
    assert |inner| == |same| && forall k :: 0 <= k < |inner| ==> inner[k] == same[k];
  }

  lemma HeadOfWord(text: string, start: nat)
    requires start < |text|
    ensures StartsWith(text, start, "null") ==> text[start] == 'n'
    ensures StartsWith(text, start, "true") ==> text[start] == 't'
    ensures StartsWith(text, start, "false") ==> text[start] == 'f'
  {
    var n := |text|;
    if start + 4 <= n { assert text[start..start + 4][0] == text[start]; }
    if start + 5 <= n { assert text[start..start + 5][0] == text[start]; }
  }

  // ---- the scanner ----

  /** What the scanner owes: on an opening bracket, the one end that closes it, if any; otherwise the one end of a
      scalar, if any. */
  ghost predicate IsValueEnd(text: string, start: nat, r: Option<nat>)
    requires start < |text|
  {
    if IsOpen(text[start]) then forall end: nat :: Closes(text, start, end) <==> r == Some(end)
    else forall end: nat :: IsScalarAt(text, start, end) <==> r == Some(end)
  }

  predicate IsScalarAt(text: string, start: nat, end: nat) {
    start < end <= |text| && IsScalar(text[start..end])
  }

  function BracketsTo(text: string, start: nat, i: nat): string
    requires start <= i <= |text|
  {
    Brackets(text[start..i], Plain)
  }

  lemma OneMore(text: string, start: nat, i: nat)
    requires start <= i < |text|
    ensures var mode := EndMode(text[start..i], Plain);
            && EndMode(text[start..i + 1], Plain) == Next(mode, text[i])
            && BracketsTo(text, start, i + 1) == BracketsTo(text, start, i)
                 + (if mode == Plain && (IsOpen(text[i]) || IsClose(text[i])) then [text[i]] else "")
  {
    assert text[start..i + 1] == text[start..i] + [text[i]];
    ScanConcat(text[start..i], [text[i]], Plain);
    assert [text[i]][1..] == "";
  }

  /** A stack that ran empty accepts nothing more. */
  lemma RunEmpty(bs: string)
    ensures Run("", bs) == if bs == "" then Some("") else None
  {
  }

  /** While the stack is neither empty nor refused nothing has been closed yet. */
  lemma NotClosedYet(text: string, start: nat, i: nat, end: nat)
    requires start < i <= |text| && IsOpen(text[start]) && end <= i
    requires var bs := BracketsTo(text, start, i);
             bs != "" && bs[0] == text[start] && Run([CloseOf(bs[0])], bs[1..]) !in {None, Some("")}
    ensures !Closes(text, start, end)
  {
    hide Run, Brackets, EndMode, Encloses, IsOpen, CloseOf;
    if Closes(text, start, end) {
      var bs, sub := BracketsTo(text, start, i), BracketsTo(text, start, end);
      assert text[start..i] == text[start..end] + text[end..i];
      ScanConcat(text[start..end], text[end..i], Plain);
      EnclosesIffRun(sub);
      assert bs[1..] == sub[1..] + bs[|sub|..];
      RunConcat([CloseOf(sub[0])], sub[1..], bs[|sub|..]);
      RunEmpty(bs[|sub|..]);
      assert false;
    }
  }

  /** Once the stack ran empty on a bracket, or was refused, no later end closes the value. */
  lemma NotClosedLater(text: string, start: nat, i: nat, end: nat)
    requires start < i < end <= |text| && IsOpen(text[start])
    requires var bs := BracketsTo(text, start, i);
             bs != "" && bs[0] == text[start] && Run([CloseOf(bs[0])], bs[1..]) in {None, Some("")}
    ensures !Closes(text, start, end)
  {
    hide Run, Brackets, EndMode, Encloses, CloseOf;
    if Closes(text, start, end) {
      var bs, all := BracketsTo(text, start, i), BracketsTo(text, start, end);
      assert text[start..end - 1] == text[start..i] + text[i..end - 1];
      ScanConcat(text[start..i], text[i..end - 1], Plain);
      OneMore(text, start, end - 1);
      assert all[1..] == bs[1..] + all[|bs|..];
      RunConcat([CloseOf(bs[0])], bs[1..], all[|bs|..]);
      RunEmpty(all[|bs|..]);
      EnclosesIffRun(all);
      assert false;
    }
  }

  function ModeOf(inString: bool, escaped: bool): Mode {
    if !inString then Plain else if escaped then Escaped else InString
  }

  /** The loop's knowledge before it reads `text[i]`. */
  ghost predicate Scanning(text: string, start: nat, i: nat, stack: string, mode: Mode) {
    && start < i <= |text| && IsOpen(text[start]) && stack != ""
    && EndMode(text[start..i], Plain) == mode
    && var bs := BracketsTo(text, start, i);
       bs != "" && bs[0] == text[start] && Run([CloseOf(bs[0])], bs[1..]) == Some(stack)
  }

  lemma ScanStarts(text: string, start: nat)
    requires start < |text| && IsOpen(text[start])
    ensures Scanning(text, start, start + 1, [CloseOf(text[start])], Plain)
  {
    assert text[start..start] == "";
    OneMore(text, start, start);
  }

  /** Reading one more character feeds its bracket, if it has one to feed, to the stack. */
  lemma ScanStep(text: string, start: nat, i: nat, stack: string, mode: Mode)
    requires i < |text| && Scanning(text, start, i, stack, mode)
    ensures var c := text[i]; var top := stack[|stack| - 1];
      if mode != Plain || (!IsOpen(c) && !IsClose(c)) then Scanning(text, start, i + 1, stack, Next(mode, c))
      else if IsOpen(c) then Scanning(text, start, i + 1, stack + [CloseOf(c)], Plain)
      else if c != top then forall end: nat :: !Closes(text, start, end)
      else if |stack| > 1 then Scanning(text, start, i + 1, stack[..|stack| - 1], Plain)
      else forall end: nat :: Closes(text, start, end) <==> end == i + 1
  {
    hide Run, Brackets, EndMode, Closes, CloseOf;
    var c, bs := text[i], BracketsTo(text, start, i);
    OneMore(text, start, i);
    if mode == Plain && (IsOpen(c) || IsClose(c)) {
      var bs' := BracketsTo(text, start, i + 1);
      assert bs'[1..] == bs[1..] + [c];
      RunConcat([CloseOf(bs[0])], bs[1..], [c]);
      RunOne(stack, c);
      if IsClose(c) && (c != stack[|stack| - 1] || |stack| == 1) { ScanDecided(text, start, i, stack); }
    } else {
      assert BracketsTo(text, start, i + 1) == bs;
    }
  }

  lemma RunOne(stack: string, c: char)
    requires stack != ""
    ensures Run(stack, [c]) ==
      if IsOpen(c) then Some(stack + [CloseOf(c)])
      else if c == stack[|stack| - 1] then Some(stack[..|stack| - 1])
      else None
  {
    assert [c][1..] == "";
  }

  /** A closing bracket that does not match, or that empties the stack, decides for every end. */
  lemma ScanDecided(text: string, start: nat, i: nat, stack: string)
    requires i < |text| && Scanning(text, start, i, stack, Plain) && IsClose(text[i])
    requires text[i] != stack[|stack| - 1] || |stack| == 1
    ensures forall end: nat :: Closes(text, start, end) <==> text[i] == stack[|stack| - 1] && end == i + 1
  {
    hide Run, Brackets, EndMode, CloseOf, Encloses;
    var c, bs, bs' := text[i], BracketsTo(text, start, i), BracketsTo(text, start, i + 1);
    OneMore(text, start, i);
    assert bs'[1..] == bs[1..] + [c];
    RunConcat([CloseOf(bs[0])], bs[1..], [c]);
    RunOne(stack, c);
    EnclosesIffRun(bs');
    forall end: nat | end != i + 1 ensures !Closes(text, start, end) {
      if end <= i {
        NotClosedYet(text, start, i, end);
      } else if end <= |text| {
        NotClosedLater(text, start, i + 1, end);
      }
    }
  }

  lemma ScanRanOut(text: string, start: nat, stack: string, mode: Mode)
    requires Scanning(text, start, |text|, stack, mode)
    ensures forall end: nat :: !Closes(text, start, end)
  {
    forall end: nat ensures !Closes(text, start, end) {
      if end <= |text| { NotClosedYet(text, start, |text|, end); }
    }
  }

  /** On anything but a bracket the scanner owes what the scalar branch returns. */
  lemma OwedOnScalar(text: string, start: nat, r: Option<nat>)
    requires start < |text| && !IsOpen(text[start])
    ensures IsValueEnd(text, start, r) <==> r == ScalarEnd(text, start)
  {
    hide ScalarEnd, IsScalar;
    var found := ScalarEnd(text, start);
    forall end: nat ensures IsScalarAt(text, start, end) <==> found == Some(end) { ScalarEndIff(text, start, end); }
    if IsValueEnd(text, start, r) {
      if r.Some? { assert IsScalarAt(text, start, r.value); }
      if found.Some? { assert IsScalarAt(text, start, found.value); }
    }
  }

  method JsonValueEnd(text: string, start: nat) returns (r: Option<nat>)
    requires start < |text|
    ensures IsValueEnd(text, start, r)
  {
    hide Closes, Scanning, ScalarEnd;
    var opening := text[start];
    if !IsOpen(opening) {
      r := ScalarEnd(text, start);
      OwedOnScalar(text, start, r);
      return;
    }
    var stack := [CloseOf(opening)];
    var inString, escaped := false, false;
    ScanStarts(text, start);
    for index := start + 1 to |text|
      invariant Scanning(text, start, index, stack, ModeOf(inString, escaped))
      invariant stack != "" && (escaped ==> inString)
    {
      var c := text[index];
      ScanStep(text, start, index, stack, ModeOf(inString, escaped));
      if inString {
        if escaped {
          escaped := false;
        } else if c == '\\' {
          escaped := true;
        } else if c == '"' {
          inString := false;
        }
      } else if c == '"' {
        inString := true;
      } else if IsOpen(c) {
        stack := stack + [CloseOf(c)];
      } else if IsClose(c) {
        var top := stack[|stack| - 1];
        stack := stack[..|stack| - 1];
        if c != top { return None; }
        if stack == "" { return Some(index + 1); }
      }
    }
    ScanRanOut(text, start, stack, ModeOf(inString, escaped));
    r := None;
  }
}
