/** JSON texts as RFC 8259 sections 2 to 7 define them, whitespace and escapes included, and what the
    scanner finds on them. */
module JsonGrammar {
  import opened Options
  import opened JsonScanner

  // ---- concrete syntax ----

  datatype StrItem =
    | Raw(c: char)
    | Esc(c: char)
    | Unicode(h1: char, h2: char, h3: char, h4: char)

  datatype Value =
    | Null | True | False
    | Num(minus: bool, whole: string, fraction: string, expMark: string, exponent: string)
    | Str(items: seq<StrItem>)
    | Arr(pad: string, elements: Elements)
    | Obj(pad: string, members: Members)

  datatype Elements =
    | NoElements
    | Element(before: string, value: Value, after: string, more: Elements)

  datatype Members =
    | NoMembers
    | Member(before: string, key: seq<StrItem>, afterKey: string, beforeValue: string, value: Value, after: string,
             more: Members)

  predicate IsDigit(c: char) { '0' <= c <= '9' }
  predicate IsHex(c: char) { IsDigit(c) || 'a' <= c <= 'f' || 'A' <= c <= 'F' }
  predicate Digits(s: string) { forall i :: 0 <= i < |s| ==> IsDigit(s[i]) }
  predicate Blank(s: string) { forall i :: 0 <= i < |s| ==> s[i] in " \t\n\r" }

  predicate WfItem(item: StrItem) {
    match item
    case Raw(c) => c >= ' ' && c != '"' && c != '\\'
    case Esc(c) => c in "\"\\/bfnrt"
    case Unicode(h1, h2, h3, h4) => IsHex(h1) && IsHex(h2) && IsHex(h3) && IsHex(h4)
  }

  predicate WfItems(items: seq<StrItem>) {
    forall i :: 0 <= i < |items| ==> WfItem(items[i])
  }

  predicate WfValue(v: Value) {
    match v
    case Num(_, whole, fraction, mark, exponent) =>
      && whole != "" && Digits(whole) && (|whole| > 1 ==> whole[0] != '0')
      && Digits(fraction) && Digits(exponent)
      && mark in {"e", "E", "e+", "E+", "e-", "E-"}
    case Str(items) => WfItems(items)
    case Arr(pad, elements) => Blank(pad) && WfElements(elements)
    case Obj(pad, members) => Blank(pad) && WfMembers(members)
    case _ => true
  }

  predicate WfElements(e: Elements) {
    e.Element? ==> Blank(e.before) && WfValue(e.value) && Blank(e.after) && WfElements(e.more)
  }

  predicate WfMembers(m: Members) {
    m.Member? ==>
      && Blank(m.before) && WfItems(m.key) && Blank(m.afterKey) && Blank(m.beforeValue)
      && WfValue(m.value) && Blank(m.after) && WfMembers(m.more)
  }

  // ---- text ----

  function ItemText(item: StrItem): string {
    match item
    case Raw(c) => [c]
    case Esc(c) => ['\\', c]
    case Unicode(h1, h2, h3, h4) => ['\\', 'u', h1, h2, h3, h4]
  }

  function ItemsText(items: seq<StrItem>): string {
    if items == [] then "" else ItemText(items[0]) + ItemsText(items[1..])
  }

  function StrText(items: seq<StrItem>): string {
    "\"" + ItemsText(items) + "\""
  }

  /** The text of a value; a number's fraction and exponent are written when they have digits. */
  function Text(v: Value): (text: string)
    ensures WfValue(v) ==> text != ""
  {
    match v
    case Null => "null"
    case True => "true"
    case False => "false"
    case Num(minus, whole, fraction, mark, exponent) =>
      (if minus then "-" else "") + whole
      + (if fraction == "" then "" else "." + fraction)
      + (if exponent == "" then "" else mark + exponent)
    case Str(items) => StrText(items)
    case Arr(pad, elements) => "[" + (pad + ElementsText(elements)) + "]"
    case Obj(pad, members) => "{" + (pad + MembersText(members)) + "}"
  }

  function ElementsText(e: Elements): string {
    match e
    case NoElements => ""
    case Element(before, v, after, more) =>
      before + (Text(v) + (after + (if more.NoElements? then "" else "," + ElementsText(more))))
  }

  function MembersText(m: Members): string {
    match m
    case NoMembers => ""
    case Member(before, key, afterKey, beforeValue, v, after, more) =>
      before + (StrText(key) + (afterKey + (":" + (beforeValue + (Text(v) + (after
      + (if more.NoMembers? then "" else "," + MembersText(more))))))))
  }

  // ---- what the scanner sees in it ----

  /** `s`, read outside strings, is balanced: it ends outside strings and its brackets are a forest. */
  ghost predicate Balanced(s: string) {
    EndMode(s, Plain) == Plain && exists f :: Wf(f) && Brackets(s, Plain) == Flatten(f)
  }

  function Append(f: Forest, g: Forest): Forest {
    match f
    case Empty => g
    case Tree(o, inside, rest) => Tree(o, inside, Append(rest, g))
  }

  lemma {:induction false} FlattenAppend(f: Forest, g: Forest)
    requires Wf(f) && Wf(g)
    ensures Wf(Append(f, g)) && Flatten(Append(f, g)) == Flatten(f) + Flatten(g)
  {
    match f
    case Empty => assert "" + Flatten(g) == Flatten(g);
    case Tree(o, inside, rest) =>
      hide Flatten;
      FlattenAppend(rest, g);
      TreeThen(o, inside, rest, Flatten(g));
      TreeThen(o, inside, Append(rest, g), "");
      assert Flatten(Append(f, g)) + "" == Flatten(Append(f, g));
      assert Flatten(Append(rest, g)) + "" == Flatten(Append(rest, g));
  }

  lemma BalancedConcat(a: string, b: string)
    requires Balanced(a) && Balanced(b)
    ensures Balanced(a + b)
  {
    ScanConcat(a, b, Plain);
    var f :| Wf(f) && Brackets(a, Plain) == Flatten(f);
    var g :| Wf(g) && Brackets(b, Plain) == Flatten(g);
    FlattenAppend(f, g);
    assert Wf(Append(f, g));
  }

  /** Text without quotes and brackets is balanced. */
  lemma {:induction false} PlainTextBalanced(s: string)
    requires forall i :: 0 <= i < |s| ==> s[i] != '"' && !IsOpen(s[i]) && !IsClose(s[i])
    ensures Balanced(s) && Brackets(s, Plain) == ""
  {
    if s != "" {
      PlainTextBalanced(s[1..]);
      assert Brackets(s, Plain) == Brackets(s[1..], Plain);
    }
    assert Flatten(Empty) == "" && Wf(Empty);
  }

  lemma {:induction false} ItemsStayInString(items: seq<StrItem>)
    requires WfItems(items)
    ensures EndMode(ItemsText(items), InString) == InString && Brackets(ItemsText(items), InString) == ""
  {
    if items != [] {
      ItemStaysInString(items[0]);
      ItemsStayInString(items[1..]);
      ScanConcat(ItemText(items[0]), ItemsText(items[1..]), InString);
    }
  }

  lemma ItemStaysInString(item: StrItem)
    requires WfItem(item)
    ensures EndMode(ItemText(item), InString) == InString && Brackets(ItemText(item), InString) == ""
  {
    match item
    case Raw(c) => InStringText([c]);
    case Esc(c) => EscapeStays([c]);
    case Unicode(h1, h2, h3, h4) =>
      var rest := ['u', h1, h2, h3, h4];
      assert ItemText(item) == ['\\'] + rest;
      InStringText([h1, h2, h3, h4]);
      assert rest == ['u'] + [h1, h2, h3, h4];
      EscapeStays(rest);
  }

  /** After a backslash the next character is skipped. */
  lemma EscapeStays(s: string)
    requires s != "" && EndMode(s[1..], InString) == InString && Brackets(s[1..], InString) == ""
    ensures EndMode(['\\'] + s, InString) == InString && Brackets(['\\'] + s, InString) == ""
  {
    assert (['\\'] + s)[1..] == s;
  }

  lemma {:induction false} InStringText(s: string)
    requires forall i :: 0 <= i < |s| ==> s[i] != '"' && s[i] != '\\'
    ensures EndMode(s, InString) == InString && Brackets(s, InString) == ""
  {
    if s != "" { InStringText(s[1..]); }
  }

  lemma StrTextBalanced(items: seq<StrItem>)
    requires WfItems(items)
    ensures Balanced(StrText(items))
  {
    ItemsStayInString(items);
    var inner := ItemsText(items);
    assert StrText(items) == "\"" + (inner + "\"");
    ScanConcat("\"", inner + "\"", Plain);
    ScanConcat(inner, "\"", InString);
    assert "\""[1..] == "";
    assert Brackets(StrText(items), Plain) == "" == Flatten(Empty) && Wf(Empty);
  }

  /** Neither quotes nor brackets. */
  predicate Unquoted(s: string) {
    forall i :: 0 <= i < |s| ==> s[i] != '"' && !IsOpen(s[i]) && !IsClose(s[i])
  }

  lemma NumBalanced(v: Value)
    requires v.Num? && WfValue(v)
    ensures Balanced(Text(v))
  {
    var sign, point := if v.minus then "-" else "", if v.fraction == "" then "" else "." + v.fraction;
    var power := if v.exponent == "" then "" else v.expMark + v.exponent;
    assert Unquoted(sign) && Unquoted(v.whole) && Unquoted(point) && Unquoted(power);
    assert Text(v) == sign + v.whole + point + power;
    hide WfValue, Text, Balanced, IsOpen, IsClose;
    UnquotedConcat(sign, v.whole);
    UnquotedConcat(sign + v.whole, point);
    UnquotedConcat(sign + v.whole + point, power);
    PlainTextBalanced(Text(v));
  }

  lemma NumHead(v: Value)
    requires v.Num? && WfValue(v)
    ensures Text(v) != "" && (Text(v)[0] == '-' || IsDigit(Text(v)[0]))
  {
  }

  lemma UnquotedConcat(a: string, b: string)
    requires Unquoted(a) && Unquoted(b)
    ensures Unquoted(a + b)
  {
    hide IsOpen, IsClose;
  }

  lemma BracketPair(o: char, s: string)
    requires IsOpen(o) && Balanced(s)
    ensures Balanced([o] + s + [CloseOf(o)])
    ensures Encloses(Brackets([o] + s + [CloseOf(o)], Plain))
    ensures EndMode([o] + s, Plain) == Plain
  {
    var f :| Wf(f) && Brackets(s, Plain) == Flatten(f);
    var c := CloseOf(o);
    ScanConcat([o], s, Plain);
    ScanConcat([o] + s, [c], Plain);
    assert [o][1..] == "" && [c][1..] == "";
    assert Brackets([o] + s + [c], Plain) == [o] + Flatten(f) + [c];
    var t := Tree(o, f, Empty);
    assert Flatten(t) == [o] + Flatten(f) + [c] + Flatten(Empty);
    assert Wf(t) && Flatten(t) == [o] + Flatten(f) + [c];
  }

  lemma {:induction false} ValueBalanced(v: Value)
    requires WfValue(v)
    ensures Balanced(Text(v))
    decreases v
  {
    match v
    case Null => PlainTextBalanced("null");
    case True => PlainTextBalanced("true");
    case False => PlainTextBalanced("false");
    case Num(_, _, _, _, _) => NumBalanced(v);
    case Str(items) => StrTextBalanced(items);
    case Arr(pad, elements) =>
      InsideBalanced(v);
      BracketPair('[', pad + ElementsText(elements));
    case Obj(pad, members) =>
      InsideBalanced(v);
      BracketPair('{', pad + MembersText(members));
  }

  function Inside(v: Value): string
    requires v.Arr? || v.Obj?
  {
    if v.Arr? then v.pad + ElementsText(v.elements) else v.pad + MembersText(v.members)
  }

  lemma {:induction false} InsideBalanced(v: Value)
    requires WfValue(v) && (v.Arr? || v.Obj?)
    ensures Balanced(Inside(v))
    decreases v, 0
  {
    PlainTextBalanced(v.pad);
    if v.Arr? {
      ElementsBalanced(v.elements);
      BalancedConcat(v.pad, ElementsText(v.elements));
    } else {
      MembersBalanced(v.members);
      BalancedConcat(v.pad, MembersText(v.members));
    }
  }

  lemma {:induction false} ElementsBalanced(e: Elements)
    requires WfElements(e)
    ensures Balanced(ElementsText(e))
    decreases e
  {
    match e
    case NoElements => PlainTextBalanced("");
    case Element(before, v, after, more) =>
      ValueBalanced(v);
      ElementsBalanced(more);
      PlainTextBalanced(",");
      PlainTextBalanced("");
      BalancedConcat(",", ElementsText(more));
      ElementBalanced(before, Text(v), after, if more.NoElements? then "" else "," + ElementsText(more));
  }

  lemma ElementBalanced(before: string, value: string, after: string, tail: string)
    requires Blank(before) && Blank(after) && Balanced(value) && Balanced(tail)
    ensures Balanced(before + (value + (after + tail)))
  {
    hide *;
    BlankBalanced(before);
    BlankBalanced(after);
    BalancedConcat(after, tail);
    BalancedConcat(value, after + tail);
    BalancedConcat(before, value + (after + tail));
  }

  lemma {:induction false} MembersBalanced(m: Members)
    requires WfMembers(m)
    ensures Balanced(MembersText(m))
    decreases m
  {
    match m
    case NoMembers => PlainTextBalanced("");
    case Member(before, key, afterKey, beforeValue, v, after, more) =>
      ValueBalanced(v);
      MembersBalanced(more);
      PlainTextBalanced(",");
      PlainTextBalanced("");
      BalancedConcat(",", MembersText(more));
      MemberBalanced(m, if more.NoMembers? then "" else "," + MembersText(more));
  }

  lemma MemberBalanced(m: Members, tail: string)
    requires m.Member? && Blank(m.before) && WfItems(m.key)
    requires Blank(m.afterKey) && Blank(m.beforeValue) && Blank(m.after)
    requires Balanced(Text(m.value)) && Balanced(tail)
    ensures var value := m.beforeValue + (Text(m.value) + (m.after + tail));
      Balanced(m.before + (StrText(m.key) + (m.afterKey + (":" + value))))
  {
    hide *;
    BlankBalanced(m.before);
    StrTextBalanced(m.key);
    BlankBalanced(m.afterKey);
    ColonBalanced();
    BlankBalanced(m.beforeValue);
    BlankBalanced(m.after);
    var t0 := m.after + tail;
    BalancedConcat(m.after, tail);
    var t1 := Text(m.value) + t0;
    BalancedConcat(Text(m.value), t0);
    var t2 := m.beforeValue + t1;
    BalancedConcat(m.beforeValue, t1);
    var t3 := ":" + t2;
    BalancedConcat(":", t2);
    var t4 := m.afterKey + t3;
    BalancedConcat(m.afterKey, t3);
    var t5 := StrText(m.key) + t4;
    BalancedConcat(StrText(m.key), t4);
    BalancedConcat(m.before, t5);
  }

  lemma ColonBalanced()
    ensures Balanced(":")
  {
    PlainTextBalanced(":");
  }

  lemma BlankBalanced(s: string)
    requires Blank(s)
    ensures Balanced(s)
  {
    PlainTextBalanced(s);
  }

  // ---- strings under the scalar pattern ----

  lemma FirstItem(items: seq<StrItem>)
    requires WfItems(items) && items != []
    ensures WfItem(items[0]) && WfItems(items[1..])
    ensures ItemsText(items) == ItemText(items[0]) + ItemsText(items[1..])
  {
  }

  lemma TextSplits(text: string, i: nat, head: string, rest: string, suffix: string)
    requires i <= |text| && text[i..] == (head + rest) + "\"" + suffix
    ensures i + |head| <= |text| && text[i + |head|..] == rest + "\"" + suffix
    ensures forall k :: 0 <= k < |head| ==> text[i + k] == head[k]
  {
    assert text[i..] == head + (rest + "\"" + suffix);
    forall k | 0 <= k < |head| ensures text[i + k] == head[k] { assert text[i + k] == text[i..][k]; }
    assert text[i + |head|..] == text[i..][|head|..];
  }

  lemma {:induction false} StringEndOfItems(text: string, i: nat, items: seq<StrItem>, suffix: string)
    requires WfItems(items) && i <= |text| && text[i..] == ItemsText(items) + "\"" + suffix
    ensures StringEnd(text, i) == Some(i + |ItemsText(items)| + 1)
    decreases |items|
  {
    if items == [] {
      StringEndHere(text, i, suffix);
    } else {
      FirstItem(items);
      hide *;
      TextSplits(text, i, ItemText(items[0]), ItemsText(items[1..]), suffix);
      StringEndOfItems(text, i + |ItemText(items[0])|, items[1..], suffix);
      StringEndSkipsItem(text, i, items[0]);
    }
  }

  lemma StringEndHere(text: string, i: nat, suffix: string)
    requires i <= |text| && text[i..] == "" + "\"" + suffix
    ensures StringEnd(text, i) == Some(i + 1)
  {
    assert text[i] == text[i..][0] == '"';
  }

  /** The pattern takes one string character at a time. */
  lemma StringEndSkipsItem(text: string, i: nat, item: StrItem)
    requires WfItem(item) && i + |ItemText(item)| <= |text|
    requires forall k :: 0 <= k < |ItemText(item)| ==> text[i + k] == ItemText(item)[k]
    ensures StringEnd(text, i) == StringEnd(text, i + |ItemText(item)|)
  {
    var t := ItemText(item);
    match item
    case Raw(c) =>
      assert text[i + 0] == t[0];
    case Esc(c) =>
      assert text[i + 0] == t[0] && text[i + 1] == t[1];
    case Unicode(h1, h2, h3, h4) =>
      assert text[i + 0] == t[0] == '\\' && text[i + 1] == t[1] == 'u';
      assert text[i + 2] == t[2] && text[i + 3] == t[3] && text[i + 4] == t[4] && text[i + 5] == t[5];
      assert StringEnd(text, i) == StringEnd(text, i + 2);
      assert StringEnd(text, i + 2) == StringEnd(text, i + 3);
      assert StringEnd(text, i + 3) == StringEnd(text, i + 4);
      assert StringEnd(text, i + 4) == StringEnd(text, i + 5);
  }

  // ---- the scanner on JSON ----

  /** For every JSON value, whatever stands before and after it, the scanner returns the value's end,
      unless the value is a number: on numbers, and on nothing else, it returns None. */
  lemma EndOfJsonValue(prefix: string, v: Value, suffix: string, r: Option<nat>)
    requires WfValue(v)
    requires IsValueEnd(prefix + Text(v) + suffix, |prefix|, r)
    ensures r == if v.Num? then None else Some(|prefix| + |Text(v)|)
  {
    var text, start := prefix + Text(v) + suffix, |prefix|;
    if v.Arr? || v.Obj? {
      EndOfBracketed(prefix, v, suffix);
      assert text[start] == Text(v)[0];
    } else {
      EndOfScalar(prefix, v, suffix);
      OwedOnScalar(prefix + Text(v) + suffix, |prefix|, r);
    }
  }

  lemma EndOfScalar(prefix: string, v: Value, suffix: string)
    requires WfValue(v) && !v.Arr? && !v.Obj?
    ensures var text := prefix + Text(v) + suffix;
      && !IsOpen(text[|prefix|])
      && ScalarEnd(text, |prefix|) == if v.Num? then None else Some(|prefix| + |Text(v)|)
  {
    var text, start := prefix + Text(v) + suffix, |prefix|;
    assert text[start] == Text(v)[0];
    if v.Num? {
      NumHead(v);
      NotKeyword(text, start);
    } else if v.Str? {
      EndOfString(prefix, v.items, suffix);
    } else {
      EndOfKeyword(prefix, v, suffix);
    }
  }

  lemma EndOfKeyword(prefix: string, v: Value, suffix: string)
    requires v.Null? || v.True? || v.False?
    ensures var text := prefix + Text(v) + suffix;
      !IsOpen(text[|prefix|]) && ScalarEnd(text, |prefix|) == Some(|prefix| + |Text(v)|)
  {
    var text, start := prefix + Text(v) + suffix, |prefix|;
    assert text[start..start + |Text(v)|] == Text(v);
    assert text[start] == Text(v)[0];
    if !v.Null? && StartsWith(text, start, "null") { KeywordFirst(text, start, "null"); }
    if v.False? && StartsWith(text, start, "true") { KeywordFirst(text, start, "true"); }
  }

  lemma EndOfString(prefix: string, items: seq<StrItem>, suffix: string)
    requires WfItems(items)
    ensures var text := prefix + StrText(items) + suffix;
      !IsOpen(text[|prefix|]) && ScalarEnd(text, |prefix|) == Some(|prefix| + |StrText(items)|)
  {
    var text, start := prefix + StrText(items) + suffix, |prefix|;
    assert text[start] == StrText(items)[0] == '"';
    assert text[start + 1..] == ItemsText(items) + "\"" + suffix;
    NotKeyword(text, start);
    StringEndOfItems(text, start + 1, items, suffix);
  }

  lemma EndOfBracketed(prefix: string, v: Value, suffix: string)
    requires WfValue(v) && (v.Arr? || v.Obj?)
    ensures IsOpen(Text(v)[0]) && Closes(prefix + Text(v) + suffix, |prefix|, |prefix| + |Text(v)|)
  {
    InsideBalanced(v);
    TextOfBracketed(v);
    hide *;
    EndOfPair(prefix, Opening(v), Inside(v), suffix);
  }

  lemma EndOfPair(prefix: string, o: char, inside: string, suffix: string)
    requires IsOpen(o) && Balanced(inside)
    ensures var whole := [o] + inside + [CloseOf(o)]; Closes(prefix + whole + suffix, |prefix|, |prefix| + |whole|)
  {
    BracketPair(o, inside);
    hide Brackets, EndMode, Encloses, Balanced;
    SliceOut(prefix, o, inside, CloseOf(o), suffix);
  }

  function Opening(v: Value): char {
    if v.Arr? then '[' else '{'
  }

  lemma TextOfBracketed(v: Value)
    requires v.Arr? || v.Obj?
    ensures IsOpen(Opening(v)) && Text(v)[0] == Opening(v)
    ensures Text(v) == [Opening(v)] + Inside(v) + [CloseOf(Opening(v))]
  {
  }

  lemma SliceOut(prefix: string, o: char, inside: string, c: char, suffix: string)
    ensures var text, start := prefix + ([o] + inside + [c]) + suffix, |prefix|; var end := start + |inside| + 2;
      text[start..end] == [o] + inside + [c] && text[start..end - 1] == [o] + inside && text[end - 1] == c
  {
  }

  lemma KeywordFirst(text: string, start: nat, word: string)
    requires start <= |text| && word != "" && StartsWith(text, start, word)
    ensures text[start] == word[0]
  {
    assert text[start..start + |word|][0] == word[0];
  }

  lemma NotKeyword(text: string, start: nat)
    requires start < |text| && text[start] !in "ntf"
    ensures !StartsWith(text, start, "null") && !StartsWith(text, start, "true") && !StartsWith(text, start, "false")
  {
    if StartsWith(text, start, "null") { KeywordFirst(text, start, "null"); }
    if StartsWith(text, start, "true") { KeywordFirst(text, start, "true"); }
    if StartsWith(text, start, "false") { KeywordFirst(text, start, "false"); }
  }
}
