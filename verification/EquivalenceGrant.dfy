/** Excusing surviving mutants: reading an equivalence review's verdicts, saving the review, and deciding whether a
    fresh gate run stands excused by the reviews saved before it. */
module EquivalenceGrant {
  import opened Options
  import opened Text

  // ---- JSON values, as Python reads them ----

  datatype Json = Null | Bool(b: bool) | Int(n: int) | Real(r: real) | Str(s: string) | List(items: seq<Json>)
                | Object(fields: map<string, Json>)

  /** A computation that may raise an exception. */
  datatype Reading<+T> = Raises | Returns(value: T)

  function Get(fields: map<string, Json>, name: string): Json {
    if name in fields then fields[name] else Null
  }

  predicate Truthy(j: Json) {
    match j
    case Null => false
    case Bool(b) => b
    case Int(n) => n != 0
    case Real(r) => r != 0.0
    case Str(s) => s != ""
    case List(items) => items != []
    case Object(fields) => fields != map[]
  }

  /** A value as text. How a value that is not text is printed is the parameter `show`. */
  function Printed(j: Json, show: Json -> string): string {
    if j.Str? then j.s else show(j)
  }

  /** A field read as text; a missing or falsy value reads as the empty text. */
  function TextAt(fields: map<string, Json>, name: string, show: Json -> string): string {
    var j := Get(fields, name);
    if Truthy(j) then Printed(j, show) else ""
  }

  /** A field read as an integer, truncated toward zero; a missing or falsy value reads as zero. */
  function IntAt(fields: map<string, Json>, name: string): Reading<int> {
    var j := Get(fields, name);
    if !Truthy(j) then Returns(0)
    else match j
      case Int(n) => Returns(n)
      case Bool(_) => Returns(1)
      case Real(r) => Returns(if r < 0.0 then -(-r).Floor else r.Floor)
      case _ => Raises
  }

  /** A field read as a number; a missing or falsy value reads as zero. */
  function RealAt(fields: map<string, Json>, name: string): Reading<real> {
    var j := Get(fields, name);
    if !Truthy(j) then Returns(0.0)
    else match j
      case Int(n) => Returns(n as real)
      case Bool(_) => Returns(1.0)
      case Real(r) => Returns(r)
      case _ => Raises
  }

  /** A field read as an object of texts; a missing or falsy value reads as the empty object. */
  function TextsAt(fields: map<string, Json>, name: string, show: Json -> string): Reading<map<string, string>> {
    var j := Get(fields, name);
    if !Truthy(j) then Returns(map[])
    else if j.Object? then Returns(map key | key in j.fields :: Printed(j.fields[key], show))
    else Raises
  }

  // ---- verdicts ----

  datatype Verdict = Equivalent | Killable | Uncertain

  function NameOf(v: Verdict): string {
    match v
    case Equivalent => "equivalent"
    case Killable => "killable"
    case Uncertain => "uncertain"
  }

  function VerdictNamed(name: string): Option<Verdict> {
    if name == "equivalent" then Some(Equivalent)
    else if name == "killable" then Some(Killable)
    else if name == "uncertain" then Some(Uncertain)
    else None
  }

  /** Lower case, as far as it can produce a plain letter: the Kelvin sign is the one other character that does. */
  function LowerChar(c: char): char {
    if 'A' <= c <= 'Z' then c + ' ' else if c == '\U{212A}' then 'k' else c
  }

  function Lower(s: string): (r: string)
    ensures |r| == |s| && forall i :: 0 <= i < |s| ==> r[i] == LowerChar(s[i])
  {
    seq(|s|, i requires 0 <= i < |s| => LowerChar(s[i]))
  }

  datatype MutantVerdict = MutantVerdict(key: string, verdict: Verdict, region: string, argument: string,
                                         lines: seq<int>)

  function IntLines(items: seq<Json>): seq<int> {
    if items == [] then []
    else (if items[0].Int? then [items[0].n] else []) + IntLines(items[1..])
  }

  /** The integers a `source_lines` value lists. Text and objects iterate over text; a number cannot be iterated. */
  function LinesOf(j: Json): Reading<seq<int>> {
    if !Truthy(j) then Returns([])
    else match j
      case List(items) => Returns(IntLines(items))
      case Str(_) => Returns([])
      case Object(_) => Returns([])
      case _ => Raises
  }

  /** `_verdict_from`. */
  function VerdictFrom(item: Json, show: Json -> string): (r: Reading<Option<MutantVerdict>>)
    ensures r.Returns? && r.value.Some? ==> Argued(r.value.value)
  {
    if !item.Object? then Returns(None)
    else
      var key := Strip(TextAt(item.fields, "key", show));
      var verdict := VerdictNamed(Lower(Strip(TextAt(item.fields, "verdict", show))));
      if key == "" || verdict == None then Returns(None)
      else
        var region := Strip(TextAt(item.fields, "divergence_region", show));
        var argument := Strip(TextAt(item.fields, "why_indistinguishable", show));
        var unargued := verdict.value == Equivalent && (region == "" || argument == "");
        var final := if unargued then Uncertain else verdict.value;
        match LinesOf(Get(item.fields, "source_lines"))
        case Raises => Raises
        case Returns(lines) => Returns(Some(MutantVerdict(key, final, region, argument, lines)))
  }

  /** A verdict as reading leaves it: stripped, keyed, and equivalent only with a region and an argument over it. */
  predicate Argued(v: MutantVerdict) {
    && v.key != "" && Stripped(v.key) && Stripped(v.region) && Stripped(v.argument)
    && (v.verdict == Equivalent ==> v.region != "" && v.argument != "")
  }

  // ---- the verdict file ----

  datatype Outcome = AllEquivalent | Rejected | Ineligible

  datatype ParsedVerdicts = Parsed(outcome: Outcome, reason: string, verdicts: seq<MutantVerdict>)

  /** The list in the file: the document itself or its "verdicts"; `None` stands for text that is not JSON. */
  function ItemsOf(document: Option<Json>): Option<seq<Json>> {
    if document == None then None
    else
      var j := if document.value.Object? then Get(document.value.fields, "verdicts") else document.value;
      if j.List? then Some(j.items) else None
  }

  /** The document gives the items: it is their list, or an object that holds the list under "verdicts". */
  predicate Presents(document: Option<Json>, items: seq<Json>) {
    && document.Some?
    && (document.value == List(items)
        || (document.value.Object? && "verdicts" in document.value.fields
            && document.value.fields["verdicts"] == List(items)))
  }

  lemma PresentedItems(document: Option<Json>)
    ensures forall items :: Presents(document, items) <==> ItemsOf(document) == Some(items)
  {
  }

  function KeysOf(vs: seq<MutantVerdict>): set<string> { set i | 0 <= i < |vs| :: vs[i].key }

  type ItemReading = Reading<Option<MutantVerdict>>

  function Readings(items: seq<Json>, show: Json -> string): (readings: seq<ItemReading>)
    ensures |readings| == |items| && forall k :: 0 <= k < |items| ==> readings[k] == VerdictFrom(items[k], show)
  {
    seq(|items|, k requires 0 <= k < |items| => VerdictFrom(items[k], show))
  }

  /** The verdicts the items read as, in order; `None` at an item that reads as none, or on an unexpected or
      repeated key. */
  function ReadAll(readings: seq<ItemReading>, expected: set<string>): Reading<Option<seq<MutantVerdict>>> {
    if readings == [] then Returns(Some([]))
    else
      var before := ReadAll(readings[..|readings| - 1], expected);
      if before.Raises? || before.value == None then before
      else match readings[|readings| - 1]
        case Raises => Raises
        case Returns(None) => Returns(None)
        case Returns(Some(v)) =>
          if v.key !in expected || v.key in KeysOf(before.value.value) then Returns(None)
          else Returns(Some(before.value.value + [v]))
  }

  function Verdicts(document: Option<Json>, expected: set<string>, show: Json -> string): Reading<ParsedVerdicts> {
    if ItemsOf(document) == None then Returns(Parsed(Rejected, "verdicts_invalid", []))
    else match ReadAll(Readings(ItemsOf(document).value, show), expected)
      case Raises => Raises
      case Returns(None) => Returns(Parsed(Rejected, "verdicts_invalid", []))
      case Returns(Some(vs)) => Returns(Judged(vs, expected))
  }

  function Judged(vs: seq<MutantVerdict>, expected: set<string>): ParsedVerdicts {
    if KeysOf(vs) != expected then Parsed(Rejected, "verdicts_incomplete", vs)
    else if exists i :: 0 <= i < |vs| && vs[i].verdict != Equivalent then Parsed(Rejected, "verdict_not_equivalent", vs)
    else Parsed(AllEquivalent, "", vs)
  }

  /** `parse_verdicts`. */
  method ParseVerdicts(document: Option<Json>, expectedKeys: seq<string>, show: Json -> string)
    returns (r: Reading<ParsedVerdicts>)
    ensures r == Verdicts(document, set i | 0 <= i < |expectedKeys| :: expectedKeys[i], show)
  {
    hide VerdictFrom, KeysOf, ItemsOf, ReadAll;
    var listed := ItemsOf(document);
    if listed == None { return Returns(Parsed(Rejected, "verdicts_invalid", [])); }
    var items := listed.value;
    var expected := set i | 0 <= i < |expectedKeys| :: expectedKeys[i];
    ghost var readings := Readings(items, show);
    var verdicts: seq<MutantVerdict>, seen: set<string> := [], {};
    NothingRead(expected);
    for k := 0 to |items|
      invariant ReadAll(readings[..k], expected) == Returns(Some(verdicts))
      invariant seen == KeysOf(verdicts)
    {
      ReadOneMore(readings, k, verdicts, expected);
      var reading := VerdictFrom(items[k], show);
      if reading.Raises? {
        RefusalLasts(readings, k + 1, expected);
        return Raises;
      }
      if reading.value == None || reading.value.value.key !in expected || reading.value.value.key in seen {
        RefusalLasts(readings, k + 1, expected);
        return Returns(Parsed(Rejected, "verdicts_invalid", []));
      }
      KeysOfMore(verdicts, reading.value.value);
      seen := seen + {reading.value.value.key};
      verdicts := verdicts + [reading.value.value];
    }
    assert readings[..|items|] == readings;
    if seen != expected { return Returns(Parsed(Rejected, "verdicts_incomplete", verdicts)); }
    if exists i :: 0 <= i < |verdicts| && verdicts[i].verdict != Equivalent {
      return Returns(Parsed(Rejected, "verdict_not_equivalent", verdicts));
    }
    return Returns(Parsed(AllEquivalent, "", verdicts));
  }

  lemma NothingRead(expected: set<string>)
    ensures KeysOf([]) == {} && ReadAll([], expected) == Returns(Some([]))
  {
  }

  lemma ReadOneMore(readings: seq<ItemReading>, k: nat, vs: seq<MutantVerdict>, expected: set<string>)
    requires k < |readings| && ReadAll(readings[..k], expected) == Returns(Some(vs))
    ensures ReadAll(readings[..k + 1], expected) ==
      match readings[k]
      case Raises => Raises
      case Returns(None) => Returns(None)
      case Returns(Some(v)) =>
        if v.key !in expected || v.key in KeysOf(vs) then Returns(None) else Returns(Some(vs + [v]))
  {
    assert readings[..k + 1][..k] == readings[..k];
  }

  lemma KeysOfMore(vs: seq<MutantVerdict>, v: MutantVerdict)
    ensures KeysOf(vs + [v]) == KeysOf(vs) + {v.key}
  {
    assert forall i :: 0 <= i < |vs| ==> (vs + [v])[i] == vs[i];
    assert (vs + [v])[|vs|] == v;
    forall key | key in KeysOf(vs) + {v.key} ensures key in KeysOf(vs + [v]) {
      if key in KeysOf(vs) {
        var i :| 0 <= i < |vs| && vs[i].key == key;
        assert (vs + [v])[i].key == key;
      }
    }
  }

  /** What stops the reading of a prefix stops the reading of the whole. */
  lemma {:induction false} RefusalLasts(readings: seq<ItemReading>, k: nat, expected: set<string>)
    requires k <= |readings|
    requires ReadAll(readings[..k], expected) in {Raises, Returns(None)}
    ensures ReadAll(readings, expected) == ReadAll(readings[..k], expected)
    decreases |readings| - k
  {
    if k == |readings| {
      assert readings[..k] == readings;
    } else {
      assert readings[..k + 1][..k] == readings[..k];
      RefusalLasts(readings, k + 1, expected);
    }
  }

  predicate IsVerdict(reading: ItemReading) { reading.Returns? && reading.value.Some? }

  function VerdictOf(reading: ItemReading): MutantVerdict
    requires IsVerdict(reading)
  {
    reading.value.value
  }

  /** The item reads as a verdict on the key. */
  predicate ReadsKey(reading: ItemReading, key: string) { IsVerdict(reading) && VerdictOf(reading).key == key }

  /** Item `k` reads as a verdict on an expected key that no earlier item reads as. */
  ghost predicate Admissible(readings: seq<ItemReading>, k: nat, expected: set<string>)
    requires k < |readings|
  {
    && IsVerdict(readings[k]) && VerdictOf(readings[k]).key in expected
    && forall j :: 0 <= j < k ==> !ReadsKey(readings[j], VerdictOf(readings[k]).key)
  }

  ghost predicate AllAdmissible(readings: seq<ItemReading>, expected: set<string>) {
    forall k :: 0 <= k < |readings| ==> Admissible(readings, k, expected)
  }

  /** The verdicts are those of the items, in order. */
  ghost predicate Lists(vs: seq<MutantVerdict>, readings: seq<ItemReading>) {
    |vs| == |readings| && forall k :: 0 <= k < |readings| ==> readings[k] == Returns(Some(vs[k]))
  }

  lemma KeyListed(vs: seq<MutantVerdict>, readings: seq<ItemReading>, key: string)
    requires Lists(vs, readings)
    ensures key in KeysOf(vs) <==> exists k :: 0 <= k < |readings| && ReadsKey(readings[k], key)
  {
    if k :| 0 <= k < |readings| && ReadsKey(readings[k], key) {
      assert vs[k].key == key;
    }
    if key in KeysOf(vs) {
      var i :| 0 <= i < |vs| && vs[i].key == key;
      assert ReadsKey(readings[i], key);
    }
  }

  lemma AdmissibleFront(readings: seq<ItemReading>, expected: set<string>)
    requires readings != []
    ensures AllAdmissible(readings, expected)
       <==> AllAdmissible(readings[..|readings| - 1], expected) && Admissible(readings, |readings| - 1, expected)
  {
    var front := readings[..|readings| - 1];
    assert forall k :: 0 <= k < |front| ==> (Admissible(readings, k, expected) <==> Admissible(front, k, expected));
  }

  /** Given the verdicts before it, the last item is admissible exactly when it reads as a verdict on a new
      expected key. */
  lemma AdmissibleLast(readings: seq<ItemReading>, vs: seq<MutantVerdict>, expected: set<string>)
    requires readings != [] && Lists(vs, readings[..|readings| - 1])
    ensures var last := readings[|readings| - 1];
      Admissible(readings, |readings| - 1, expected) <==>
        IsVerdict(last) && VerdictOf(last).key in expected && VerdictOf(last).key !in KeysOf(vs)
  {
    hide KeysOf;
    var last := readings[|readings| - 1];
    if IsVerdict(last) { KeyListed(vs, readings[..|readings| - 1], VerdictOf(last).key); }
  }

  /** Reading succeeds exactly when every item is admissible, and then yields the items' verdicts in order. */
  lemma {:induction false} ReadAllIff(readings: seq<ItemReading>, expected: set<string>)
    ensures var r := ReadAll(readings, expected);
      if AllAdmissible(readings, expected) then r.Returns? && r.value.Some? && Lists(r.value.value, readings)
      else r in {Raises, Returns(None)}
  {
    hide KeysOf, Admissible;
    if readings != [] {
      var front := readings[..|readings| - 1];
      ReadAllIff(front, expected);
      AdmissibleFront(readings, expected);
      var before := ReadAll(front, expected);
      if before.Returns? && before.value.Some? { AdmissibleLast(readings, before.value.value, expected); }
    }
  }

  /** The file gives every expected key one argued `equivalent` verdict, and nothing else. */
  ghost predicate ProvesAll(readings: seq<ItemReading>, expected: set<string>) {
    && AllAdmissible(readings, expected)
    && (forall k :: 0 <= k < |readings| ==> IsVerdict(readings[k]) && VerdictOf(readings[k]).verdict == Equivalent)
    && forall key :: key in expected ==> exists k :: 0 <= k < |readings| && ReadsKey(readings[k], key)
  }

  /** A review is accepted exactly when the document presents items that prove all the expected mutants, and it then
      keeps their verdicts in order. */
  lemma AcceptedIff(document: Option<Json>, expected: set<string>, show: Json -> string)
    ensures var r := Verdicts(document, expected, show);
      && ((r.Returns? && r.value.outcome == AllEquivalent)
          <==> exists items :: Presents(document, items) && ProvesAll(Readings(items, show), expected))
      && (r.Returns? && r.value.outcome == AllEquivalent ==> exists items ::
            Presents(document, items) && Lists(r.value.verdicts, Readings(items, show)))
  {
    hide Readings, VerdictFrom, ReadAll, KeysOf, AllAdmissible, ItemsOf, Presents;
    PresentedItems(document);
    if ItemsOf(document).Some? {
      var items := ItemsOf(document).value;
      assert Presents(document, items);
      JudgedProves(Readings(items, show), expected);
    }
  }

  /** A list under "verdicts" reads as the bare list does; everything else, and text that is not JSON, is refused. */
  lemma DocumentForms(fields: map<string, Json>, items: seq<Json>, j: Json, expected: set<string>, show: Json -> string)
    ensures Verdicts(Some(Object(fields["verdicts" := List(items)])), expected, show)
         == Verdicts(Some(List(items)), expected, show)
    ensures "verdicts" !in fields || !fields["verdicts"].List? ==>
      Verdicts(Some(Object(fields)), expected, show) == Returns(Parsed(Rejected, "verdicts_invalid", []))
    ensures !j.List? && !j.Object? ==>
      Verdicts(Some(j), expected, show) == Returns(Parsed(Rejected, "verdicts_invalid", []))
    ensures Verdicts(None, expected, show) == Returns(Parsed(Rejected, "verdicts_invalid", []))
  {
    hide Readings, ReadAll, Judged;
  }

  /** Some expected key is read from no item. */
  ghost predicate Incomplete(readings: seq<ItemReading>, expected: set<string>) {
    exists key :: key in expected && forall k :: 0 <= k < |readings| ==> !ReadsKey(readings[k], key)
  }

  /** How a list of items is answered: an item that raises after admissible ones raises; any other item that is
      not admissible makes the file invalid; a missing key makes it incomplete, and a verdict other than
      `equivalent` refuses it. The last two keep the verdicts. */
  lemma AnsweredAs(items: seq<Json>, expected: set<string>, show: Json -> string)
    ensures var readings := Readings(items, show); var r := Verdicts(Some(List(items)), expected, show);
      && (r.Raises? <==>
            exists k :: 0 <= k < |readings| && readings[k].Raises? && AllAdmissible(readings[..k], expected))
      && (r.Returns? && !AllAdmissible(readings, expected) ==>
            r.value == Parsed(Rejected, "verdicts_invalid", []))
      && (AllAdmissible(readings, expected) ==> r.Returns? && Lists(r.value.verdicts, readings))
      && (AllAdmissible(readings, expected) ==>
            if Incomplete(readings, expected) then
              r.value.outcome == Rejected && r.value.reason == "verdicts_incomplete"
            else if exists k :: 0 <= k < |readings| && VerdictOf(readings[k]).verdict != Equivalent then
              r.value.outcome == Rejected && r.value.reason == "verdict_not_equivalent"
            else r.value.outcome == AllEquivalent && r.value.reason == "")
  {
    var readings := Readings(items, show);
    RaisesIff(readings, expected);
    ReadAllIff(readings, expected);
    hide Readings, VerdictFrom, ReadAll, KeysOf;
    if AllAdmissible(readings, expected) {
      var vs := ReadAll(readings, expected).value.value;
      KeysCovered(vs, readings, expected);
      assert forall k :: 0 <= k < |readings| ==> IsVerdict(readings[k]) && VerdictOf(readings[k]) == vs[k];
    }
  }

  /** The checks after the loop accept exactly a file that proves all. */
  lemma JudgedProves(readings: seq<ItemReading>, expected: set<string>)
    ensures ProvesAll(readings, expected) <==> exists vs ::
      ReadAll(readings, expected) == Returns(Some(vs)) && Judged(vs, expected).outcome == AllEquivalent
    ensures forall vs :: ReadAll(readings, expected) == Returns(Some(vs)) ==> Lists(vs, readings)
  {
    hide ReadAll, KeysOf, AllAdmissible;
    ReadAllIff(readings, expected);
    if AllAdmissible(readings, expected) {
      var vs := ReadAll(readings, expected).value.value;
      KeysCovered(vs, readings, expected);
      assert forall k :: 0 <= k < |readings| ==> IsVerdict(readings[k]) && VerdictOf(readings[k]) == vs[k];
    }
  }

  lemma KeysCovered(vs: seq<MutantVerdict>, readings: seq<ItemReading>, expected: set<string>)
    requires AllAdmissible(readings, expected) && Lists(vs, readings)
    ensures KeysOf(vs) == expected <==>
      forall key :: key in expected ==> exists k :: 0 <= k < |readings| && ReadsKey(readings[k], key)
  {
    hide KeysOf;
    forall key ensures key in KeysOf(vs) <==> exists k :: 0 <= k < |readings| && ReadsKey(readings[k], key) {
      KeyListed(vs, readings, key);
    }
    forall key | key in KeysOf(vs) ensures key in expected {
      var k :| 0 <= k < |readings| && ReadsKey(readings[k], key);
      assert Admissible(readings, k, expected);
    }
  }

  /** The review raises instead of refusing exactly when the reading of an item raises and all items before it
      are admissible. */
  lemma {:induction false} RaisesIff(readings: seq<ItemReading>, expected: set<string>)
    ensures ReadAll(readings, expected).Raises? <==>
      exists k :: 0 <= k < |readings| && readings[k].Raises? && AllAdmissible(readings[..k], expected)
  {
    hide KeysOf, AllAdmissible;
    if readings != [] {
      var last := |readings| - 1;
      var front := readings[..last];
      RaisesIff(front, expected);
      ReadAllIff(front, expected);
      assert forall k :: 0 <= k <= last ==> front[..k] == readings[..k];
    }
  }

  /** The word is the name, in any case. */
  predicate InAnyCase(word: string, name: string) {
    && |word| == |name|
    && forall i :: 0 <= i < |name| ==> word[i] == name[i] || word[i] as int == name[i] as int - 32
  }

  lemma LowerOfName(word: string, name: string)
    requires InAnyCase(word, name) && forall i :: 0 <= i < |name| ==> 'a' <= name[i] <= 'z'
    ensures Lower(word) == name
  {
    assert forall i :: 0 <= i < |name| ==> LowerChar(word[i]) == name[i];
    var lowered := Lower(word);
    assert |lowered| == |name| && forall i :: 0 <= i < |name| ==> lowered[i] == name[i];
  }

  /** The Kelvin sign is the one character outside the alphabet that lower case turns into a letter. */
  lemma KelvinIsK()
    ensures Lower("\U{212A}illable") == "killable"
  {
    var word, lowered := "\U{212A}illable", Lower("\U{212A}illable");
    assert |lowered| == 8 && forall i :: 0 <= i < 8 ==> lowered[i] == "killable"[i];
  }

  lemma NamesAreLetters(name: string)
    requires name in {"equivalent", "killable", "uncertain"}
    ensures forall i :: 0 <= i < |name| ==> 'a' <= name[i] <= 'z'
  {
  }

  function NamedVerdict(name: string): Verdict {
    if name == "equivalent" then Equivalent else if name == "killable" then Killable else Uncertain
  }

  lemma RequestedFields(key: string, word: string, region: string, argument: string)
    ensures var item := RequestedItem(key, word, region, argument);
      && item.Object? && Get(item.fields, "key") == Str(key) && Get(item.fields, "verdict") == Str(word)
      && Get(item.fields, "divergence_region") == Str(region)
      && Get(item.fields, "why_indistinguishable") == Str(argument)
      && LinesOf(Get(item.fields, "source_lines")) == Returns([1, 2])
  {
    RequestedLines();
    hide LinesOf;
  }

  lemma NameIn(word: string, name: string)
    requires name in {"equivalent", "killable", "uncertain"} && InAnyCase(word, name)
    ensures VerdictNamed(Lower(word)) == Some(NamedVerdict(name))
  {
    NamesAreLetters(name);
    LowerOfName(word, name);
    hide Lower, InAnyCase;
  }

  /** An item in the form the review is asked for, whatever blanks stand around its texts and in whatever case its
      verdict is written: it keeps its key, and its verdict unless that is `equivalent` without a region or an argument,
      which makes it uncertain. Without a key, or with any other verdict, it reads as none. */
  lemma RequestedItemReads(key: string, word: string, region: string, argument: string, name: string,
                           show: Json -> string)
    requires name in {"equivalent", "killable", "uncertain"}
    ensures var r := VerdictFrom(RequestedItem(key, word, region, argument), show);
      && (Strip(key) == "" || Lower(Strip(word)) !in {"equivalent", "killable", "uncertain"} ==> r == Returns(None))
      && (Strip(key) != "" && InAnyCase(Strip(word), name) ==>
            var named := NamedVerdict(name);
            var unproven := named == Equivalent && (Strip(region) == "" || Strip(argument) == "");
            r == Returns(Some(MutantVerdict(Strip(key), if unproven then Uncertain else named, Strip(region),
                                            Strip(argument), [1, 2]))))
  {
    RequestedFields(key, word, region, argument);
    NamesOf(Lower(Strip(word)));
    if InAnyCase(Strip(word), name) { NameIn(Strip(word), name); }
    hide *;
    FieldsReadAs(RequestedItem(key, word, region, argument).fields, key, word, region, argument, show);
  }

  lemma NamesOf(name: string)
    ensures VerdictNamed(name) == None <==> name !in {"equivalent", "killable", "uncertain"}
    ensures name == "equivalent" ==> VerdictNamed(name) == Some(Equivalent)
    ensures name == "killable" ==> VerdictNamed(name) == Some(Killable)
    ensures name == "uncertain" ==> VerdictNamed(name) == Some(Uncertain)
  {
  }

  lemma FieldsReadAs(fields: map<string, Json>, key: string, word: string, region: string, argument: string,
                     show: Json -> string)
    requires Get(fields, "key") == Str(key) && Get(fields, "verdict") == Str(word)
    requires Get(fields, "divergence_region") == Str(region) && Get(fields, "why_indistinguishable") == Str(argument)
    requires LinesOf(Get(fields, "source_lines")) == Returns([1, 2])
    ensures var r, verdict := VerdictFrom(Object(fields), show), VerdictNamed(Lower(Strip(word)));
      if Strip(key) == "" || verdict == None then r == Returns(None)
      else
        var unproven := verdict.value == Equivalent && (Strip(region) == "" || Strip(argument) == "");
        r == Returns(Some(MutantVerdict(Strip(key), if unproven then Uncertain else verdict.value, Strip(region),
                                        Strip(argument), [1, 2])))
  {
    TextAtSaved(fields, "key", key, show);
    TextAtSaved(fields, "verdict", word, show);
    TextAtSaved(fields, "divergence_region", region, show);
    TextAtSaved(fields, "why_indistinguishable", argument, show);
    hide TextAt, Strip, Lower, LinesOf, Get, VerdictNamed;
  }

  lemma LinesRaise(item: Json, show: Json -> string)
    ensures VerdictFrom(item, show).Raises? <==>
      && item.Object?
      && Strip(TextAt(item.fields, "key", show)) != ""
      && VerdictNamed(Lower(Strip(TextAt(item.fields, "verdict", show)))).Some?
      && var lines := Get(item.fields, "source_lines"); Truthy(lines) && (lines.Bool? || lines.Int? || lines.Real?)
  {
  }

  /** One verdict, well-formed but for a number where its source lines should be. */
  function NumberedVerdict(key: string): Json {
    Object(map["key" := Str(key), "verdict" := Str(NameOf(Killable)), "source_lines" := Int(7)])
  }

  lemma NumberRaises(fields: map<string, Json>, key: string, show: Json -> string)
    requires Get(fields, "key") == Str(key) && Strip(key) != "" && Get(fields, "verdict") == Str(NameOf(Killable))
    requires Get(fields, "source_lines") == Int(7)
    ensures VerdictFrom(Object(fields), show).Raises?
  {
    hide Strip, Lower, NameOf, TextAt, VerdictNamed, Get;
    NameRoundTrip(Killable);
    TextAtSaved(fields, "key", key, show);
    TextAtSaved(fields, "verdict", NameOf(Killable), show);
  }

  lemma RaisingItem(item: Json, expected: set<string>, show: Json -> string)
    requires VerdictFrom(item, show).Raises?
    ensures Verdicts(Some(List([item])), expected, show).Raises?
  {
    hide VerdictFrom, KeysOf, ReadAll;
    var readings := Readings([item], show);
    NothingRead(expected);
    assert readings[..0] == [] && readings[..1] == readings;
    ReadOneMore(readings, 0, [], expected);
  }

  /** It happens: a file that gives a line number where a list of lines belongs raises, whatever keys are expected. */
  lemma NumberedVerdictRaises(key: string, expected: set<string>, show: Json -> string)
    requires Strip(key) != ""
    ensures Verdicts(Some(List([NumberedVerdict(key)])), expected, show).Raises?
  {
    hide VerdictFrom, Verdicts, Strip, NameOf;
    NumberRaises(NumberedVerdict(key).fields, key, show);
    RaisingItem(NumberedVerdict(key), expected, show);
  }

  // ---- survivors and decisions, and their saved form ----

  datatype MutantIdentity = MutantIdentity(
    key: string, sourcePath: string, line: int, operator: string, description: string, diff: string)

  datatype Survivors = Survivors(
    language: string, mutants: seq<MutantIdentity>, unreviewed: int, fingerprints: map<string, string>,
    rate: real, gate: real)

  datatype ReviewDecision = ReviewDecision(
    outcome: Outcome, reason: string, survivors: Option<Survivors>, verdicts: seq<MutantVerdict>,
    digest: string, session: map<string, string>, modelId: string)

  function MutantKeys(s: Survivors): set<string> { set i | 0 <= i < |s.mutants| :: s.mutants[i].key }

  function SaveTexts(m: map<string, string>): Json { Object(map key | key in m :: Str(m[key])) }

  function SaveMutant(m: MutantIdentity): Json {
    Object(map[
      "key" := Str(m.key), "source_path" := Str(m.sourcePath), "line" := Int(m.line), "operator" := Str(m.operator),
      "description" := Str(m.description), "mutation_diff" := Str(m.diff)])
  }

  function SaveMutants(ms: seq<MutantIdentity>): seq<Json> {
    if ms == [] then [] else [SaveMutant(ms[0])] + SaveMutants(ms[1..])
  }

  function SaveSurvivors(s: Survivors): (j: Json)
    ensures j.Object?
  {
    Object(map[
      "language" := Str(s.language), "mutants" := List(SaveMutants(s.mutants)),
      "unreviewed_scoring_failures" := Int(s.unreviewed), "source_fingerprints" := SaveTexts(s.fingerprints),
      "mutation_rate" := Real(s.rate), "mutation_gate" := Real(s.gate)])
  }

  function SaveLines(lines: seq<int>): seq<Json> {
    if lines == [] then [] else [Int(lines[0])] + SaveLines(lines[1..])
  }

  function SaveVerdict(v: MutantVerdict): Json {
    Object(map[
      "key" := Str(v.key), "verdict" := Str(NameOf(v.verdict)), "divergence_region" := Str(v.region),
      "why_indistinguishable" := Str(v.argument),
      "source_lines" := List(SaveLines(v.lines))])
  }

  function SaveVerdicts(vs: seq<MutantVerdict>): seq<Json> {
    if vs == [] then [] else [SaveVerdict(vs[0])] + SaveVerdicts(vs[1..])
  }

  function OutcomeName(o: Outcome): string {
    match o
    case AllEquivalent => "all_equivalent"
    case Rejected => "rejected"
    case Ineligible => "ineligible"
  }

  /** `ReviewDecision.to_dict`. */
  function Save(d: ReviewDecision): map<string, Json> {
    map[
      "outcome" := Str(OutcomeName(d.outcome)), "reason" := Str(d.reason),
      "survivors" := if d.survivors.Some? then SaveSurvivors(d.survivors.value) else Null,
      "verdicts" := List(SaveVerdicts(d.verdicts)),
      "verdicts_sha256" := Str(d.digest), "agent_session_ref" := SaveTexts(d.session), "model_id" := Str(d.modelId)]
  }

  /** Reading a mutant that is not an object raises. */
  function LoadMutant(j: Json, show: Json -> string): Reading<MutantIdentity> {
    if !j.Object? then Raises
    else match IntAt(j.fields, "line")
      case Raises => Raises
      case Returns(line) => Returns(MutantIdentity(
        TextAt(j.fields, "key", show), TextAt(j.fields, "source_path", show), line, TextAt(j.fields, "operator", show),
        TextAt(j.fields, "description", show), TextAt(j.fields, "mutation_diff", show)))
  }

  function LoadMutants(items: seq<Json>, show: Json -> string): Reading<seq<MutantIdentity>> {
    if items == [] then Returns([])
    else
      var first, rest := LoadMutant(items[0], show), LoadMutants(items[1..], show);
      if first.Raises? || rest.Raises? then Raises else Returns([first.value] + rest.value)
  }

  /** The elements a field lists: text and objects iterate over text, here left blank, and a missing or falsy
      value lists nothing. */
  function ElementsAt(fields: map<string, Json>, name: string): Reading<seq<Json>> {
    var j := Get(fields, name);
    if !Truthy(j) then Returns([])
    else match j
      case List(items) => Returns(items)
      case Str(s) => Returns(seq(|s|, _ => Str("")))
      case Object(f) => Returns(seq(|f|, _ => Str("")))
      case _ => Raises
  }

  /** `ScoringSurvivors.from_dict`. */
  function LoadSurvivors(fields: map<string, Json>, show: Json -> string): Reading<Survivors> {
    var elements := ElementsAt(fields, "mutants");
    var unreviewed := IntAt(fields, "unreviewed_scoring_failures");
    var fingerprints := TextsAt(fields, "source_fingerprints", show);
    var rate, gate := RealAt(fields, "mutation_rate"), RealAt(fields, "mutation_gate");
    if elements.Raises? || unreviewed.Raises? || fingerprints.Raises? || rate.Raises? || gate.Raises? then Raises
    else match LoadMutants(elements.value, show)
      case Raises => Raises
      case Returns(mutants) =>
        Returns(Survivors(TextAt(fields, "language", show), mutants, unreviewed.value, fingerprints.value, rate.value,
                          gate.value))
  }

  /** The verdicts the items read as, dropping those that read as none. */
  function LoadVerdicts(items: seq<Json>, show: Json -> string): Reading<seq<MutantVerdict>> {
    if items == [] then Returns([])
    else
      var first, rest := VerdictFrom(items[0], show), LoadVerdicts(items[1..], show);
      if first.Raises? || rest.Raises? then Raises
      else if first.value == None then rest
      else Returns([first.value.value] + rest.value)
  }

  function OutcomeNamed(name: string): Outcome {
    if name == "all_equivalent" then AllEquivalent else if name == "ineligible" then Ineligible else Rejected
  }

  /** `ReviewDecision.from_dict`. */
  function Load(fields: map<string, Json>, show: Json -> string): Reading<ReviewDecision> {
    var survivors := Get(fields, "survivors");
    var loaded := if survivors.Object? then LoadSurvivors(survivors.fields, show) else Raises;
    var elements, session := ElementsAt(fields, "verdicts"), TextsAt(fields, "agent_session_ref", show);
    if (survivors.Object? && loaded.Raises?) || elements.Raises? || session.Raises? then Raises
    else match LoadVerdicts(elements.value, show)
      case Raises => Raises
      case Returns(verdicts) => Returns(ReviewDecision(
        OutcomeNamed(TextAt(fields, "outcome", show)), TextAt(fields, "reason", show),
        if survivors.Object? then Some(loaded.value) else None, verdicts,
        TextAt(fields, "verdicts_sha256", show), session.value, TextAt(fields, "model_id", show)))
  }

  lemma {:induction false} LinesRoundTrip(lines: seq<int>)
    ensures IntLines(SaveLines(lines)) == lines
  {
    if lines != [] {
      LinesRoundTrip(lines[1..]);
      assert SaveLines(lines)[1..] == SaveLines(lines[1..]);
      assert lines == [lines[0]] + lines[1..];
    }
  }

  lemma LowerUnchanged(s: string)
    requires forall i :: 0 <= i < |s| ==> 'a' <= s[i] <= 'z'
    ensures Lower(s) == s && Strip(s) == s
  {
    hide Strip;
    assert forall i :: 0 <= i < |s| ==> LowerChar(s[i]) == s[i] && !IsSpace(s[i]);
    assert Stripped(s);
    hide *;
    assert Lower(s) == s;
    StripStripped(s);
  }

  lemma NameRoundTrip(v: Verdict)
    ensures NameOf(v) != "" && VerdictNamed(Lower(Strip(NameOf(v)))) == Some(v)
  {
    hide Strip, Lower;
    LowerUnchanged(NameOf(v));
  }

  lemma TextAtSaved(fields: map<string, Json>, name: string, s: string, show: Json -> string)
    requires Get(fields, name) == Str(s)
    ensures TextAt(fields, name, show) == s
  {
  }

  lemma VerdictRoundTrip(v: MutantVerdict, show: Json -> string)
    requires Argued(v)
    ensures VerdictFrom(SaveVerdict(v), show) == Returns(Some(v))
  {
    hide Argued, VerdictFrom;
    LinesRoundTrip(v.lines);
    ReadsBack(SaveVerdict(v).fields, v, show);
  }

  lemma ReadsBack(fields: map<string, Json>, v: MutantVerdict, show: Json -> string)
    requires Argued(v)
    requires Get(fields, "key") == Str(v.key) && Get(fields, "verdict") == Str(NameOf(v.verdict))
    requires Get(fields, "divergence_region") == Str(v.region)
    requires Get(fields, "why_indistinguishable") == Str(v.argument)
    requires LinesOf(Get(fields, "source_lines")) == Returns(v.lines)
    ensures VerdictFrom(Object(fields), show) == Returns(Some(v))
  {
    hide Strip, Lower, NameOf, TextAt, VerdictNamed, Stripped, Get, LinesOf;
    NameRoundTrip(v.verdict);
    TextAtSaved(fields, "key", v.key, show);
    TextAtSaved(fields, "verdict", NameOf(v.verdict), show);
    TextAtSaved(fields, "divergence_region", v.region, show);
    TextAtSaved(fields, "why_indistinguishable", v.argument, show);
    StripStripped(v.key);
    StripStripped(v.region);
    StripStripped(v.argument);
  }

  lemma {:induction false} VerdictsRoundTrip(vs: seq<MutantVerdict>, show: Json -> string)
    requires forall i :: 0 <= i < |vs| ==> Argued(vs[i])
    ensures LoadVerdicts(SaveVerdicts(vs), show) == Returns(vs)
  {
    hide VerdictFrom, SaveVerdict, Argued;
    if vs != [] {
      VerdictsRoundTrip(vs[1..], show);
      VerdictRoundTrip(vs[0], show);
      assert SaveVerdicts(vs)[1..] == SaveVerdicts(vs[1..]);
      assert vs == [vs[0]] + vs[1..];
    }
  }

  lemma MutantRoundTrip(m: MutantIdentity, show: Json -> string)
    ensures LoadMutant(SaveMutant(m), show) == Returns(m)
  {
  }

  lemma {:induction false} MutantsRoundTrip(ms: seq<MutantIdentity>, show: Json -> string)
    ensures LoadMutants(SaveMutants(ms), show) == Returns(ms)
  {
    hide LoadMutant, SaveMutant;
    if ms != [] {
      MutantsRoundTrip(ms[1..], show);
      MutantRoundTrip(ms[0], show);
      assert SaveMutants(ms)[1..] == SaveMutants(ms[1..]);
      assert ms == [ms[0]] + ms[1..];
    }
  }

  lemma TextsRoundTrip(fields: map<string, Json>, name: string, m: map<string, string>, show: Json -> string)
    requires Get(fields, name) == SaveTexts(m)
    ensures TextsAt(fields, name, show) == Returns(m)
  {
    var saved := SaveTexts(m).fields;
    if saved == map[] {
      assert forall key :: key in m ==> key in saved;
      assert m == map[];
    } else {
      assert (map key | key in saved :: Printed(saved[key], show)) == m;
    }
  }

  lemma SurvivorsRoundTrip(s: Survivors, show: Json -> string)
    ensures LoadSurvivors(SaveSurvivors(s).fields, show) == Returns(s)
  {
    hide SaveMutant, LoadMutant, SaveTexts, TextsAt;
    MutantsRoundTrip(s.mutants, show);
    TextsRoundTrip(SaveSurvivors(s).fields, "source_fingerprints", s.fingerprints, show);
  }

  lemma DecisionRoundTrip(d: ReviewDecision, show: Json -> string)
    requires forall i :: 0 <= i < |d.verdicts| ==> Argued(d.verdicts[i])
    ensures Load(Save(d), show) == Returns(d)
  {
    hide SaveSurvivors, LoadSurvivors, SaveVerdict, VerdictFrom, SaveTexts, TextsAt, TextAt, Argued;
    TextAtSaved(Save(d), "outcome", OutcomeName(d.outcome), show);
    TextAtSaved(Save(d), "reason", d.reason, show);
    TextAtSaved(Save(d), "verdicts_sha256", d.digest, show);
    TextAtSaved(Save(d), "model_id", d.modelId, show);
    if d.survivors.Some? { SurvivorsRoundTrip(d.survivors.value, show); }
    VerdictsRoundTrip(d.verdicts, show);
    TextsRoundTrip(Save(d), "agent_session_ref", d.session, show);
  }

  lemma {:induction false} LoadedAreArgued(items: seq<Json>, show: Json -> string)
    ensures var r := LoadVerdicts(items, show);
      r.Returns? ==> forall i :: 0 <= i < |r.value| ==> Argued(r.value[i])
  {
    hide VerdictFrom, Argued;
    if items != [] { LoadedAreArgued(items[1..], show); }
  }

  /** The saved form of a decision, field by field. */
  lemma SavedAs(d: ReviewDecision)
    ensures Save(d).Keys
         == {"outcome", "reason", "survivors", "verdicts", "verdicts_sha256", "agent_session_ref", "model_id"}
    ensures Save(d)["outcome"] == Str(match d.outcome case AllEquivalent => "all_equivalent" case Rejected => "rejected"
                                                      case Ineligible => "ineligible")
    ensures Save(d)["reason"] == Str(d.reason) && Save(d)["verdicts_sha256"] == Str(d.digest)
    ensures Save(d)["model_id"] == Str(d.modelId) && (d.survivors == None <==> Save(d)["survivors"] == Null)
    ensures Save(d)["verdicts"].List? && |Save(d)["verdicts"].items| == |d.verdicts|
    ensures forall i :: 0 <= i < |d.verdicts| ==> Save(d)["verdicts"].items[i] == SaveVerdict(d.verdicts[i])
    ensures d.survivors.Some? ==> Save(d)["survivors"].Object?
    ensures d.survivors.Some? ==>
      Save(d)["survivors"].fields.Keys == {"language", "mutants", "unreviewed_scoring_failures", "source_fingerprints",
                                           "mutation_rate", "mutation_gate"}
  {
    SavedVerdictsAre(d.verdicts);
    hide SaveVerdict, SaveMutants, SaveTexts, SaveVerdicts;
  }

  lemma {:induction false} SavedVerdictsAre(vs: seq<MutantVerdict>)
    ensures |SaveVerdicts(vs)| == |vs| && forall i :: 0 <= i < |vs| ==> SaveVerdicts(vs)[i] == SaveVerdict(vs[i])
  {
    if vs != [] { SavedVerdictsAre(vs[1..]); }
  }

  /** The saved form of a verdict. */
  lemma VerdictSavedAs(v: MutantVerdict)
    ensures SaveVerdict(v).Object? && SaveVerdict(v).fields.Keys ==
      {"key", "verdict", "divergence_region", "why_indistinguishable", "source_lines"}
    ensures SaveVerdict(v).fields["verdict"] == Str(match v.verdict case Equivalent => "equivalent"
                                                    case Killable => "killable" case Uncertain => "uncertain")
  {
  }

  /** How one field of a stored object is read, by the kind of its value: numbers are cut toward zero and true counts as
      one where a number belongs, everything counts as text there, and what is missing, null, false, zero or empty reads
      as nothing; a text, a list or an object in place of a number raises. */
  lemma FieldRead(name: string, n: int, r: real, s: string, j: Json, show: Json -> string)
    ensures IntAt(map[name := Int(n)], name) == Returns(n) && RealAt(map[name := Int(n)], name) == Returns(n as real)
    ensures IntAt(map[name := Bool(true)], name) == Returns(1) && RealAt(map[name := Bool(true)], name) == Returns(1.0)
    ensures RealAt(map[name := Real(r)], name) == Returns(r)
    ensures IntAt(map[name := Real(r)], name).Returns? &&
      var cut := IntAt(map[name := Real(r)], name).value;
      if r >= 0.0 then cut as real <= r < cut as real + 1.0 else cut as real - 1.0 < r <= cut as real
    ensures TextAt(map[name := Str(s)], name, show) == s
    ensures TextAt(map[name := Int(n)], name, show) == if n == 0 then "" else show(Int(n))
    ensures j in {Null, Bool(false), Int(0), Real(0.0), Str(""), List([]), Object(map[])} ==>
      && IntAt(map[name := j], name) == Returns(0) && RealAt(map[name := j], name) == Returns(0.0)
      && TextAt(map[name := j], name, show) == "" && TextsAt(map[name := j], name, show) == Returns(map[])
      && ElementsAt(map[name := j], name) == Returns([])
    ensures IntAt(map[], name) == Returns(0) && RealAt(map[], name) == Returns(0.0) && TextAt(map[], name, show) == ""
    ensures TextsAt(map[], name, show) == Returns(map[]) && ElementsAt(map[], name) == Returns([])
    ensures (j.Str? && j.s != "") || (j.List? && j.items != []) || (j.Object? && j.fields != map[]) ==>
      IntAt(map[name := j], name) == Raises && RealAt(map[name := j], name) == Raises
  {
  }

  /** A stored decision with an unknown outcome counts as rejected, and a stored verdict that reads as none is
      left out. */
  lemma LoadedLeniently(name: string, item: Json, items: seq<Json>, show: Json -> string)
    ensures name !in {"all_equivalent", "ineligible"} ==> OutcomeNamed(name) == Rejected
    ensures VerdictFrom(item, show) == Returns(None) ==>
      LoadVerdicts([item] + items, show) == LoadVerdicts(items, show)
  {
    hide VerdictFrom;
    assert ([item] + items)[1..] == items;
  }

  /** A decision survives saving and loading exactly when its verdicts are as reading leaves them. */
  lemma SaveLoad(d: ReviewDecision, show: Json -> string)
    ensures Load(Save(d), show) == Returns(d) <==> forall i :: 0 <= i < |d.verdicts| ==> Argued(d.verdicts[i])
  {
    hide Save, LoadSurvivors, LoadVerdicts, Argued, OutcomeNamed, TextAt, ElementsAt, TextsAt;
    var elements := ElementsAt(Save(d), "verdicts");
    if elements.Returns? { LoadedAreArgued(elements.value, show); }
    if forall i :: 0 <= i < |d.verdicts| ==> Argued(d.verdicts[i]) { DecisionRoundTrip(d, show); }
  }

  // ---- the review, and the grant ----

  /** What one review turn leaves behind: the survivors it was shown, whether the tracked tree is unchanged, the turn's
      status, the verdict file's JSON value, and the bookkeeping saved beside it. */
  datatype Turn = Turn(
    survivors: Survivors, treeKept: bool, status: string, document: Option<Json>, digest: string,
    session: map<string, string>, modelId: string)

  /** `interpret`, once the review request is at hand. */
  function Interpret(t: Turn, show: Json -> string): Reading<ReviewDecision> {
    if !t.treeKept then
      Returns(ReviewDecision(Rejected, "review_modified_workspace", Some(t.survivors), [], "", t.session, t.modelId))
    else if t.status != "" && t.status != "completed" then
      Returns(ReviewDecision(Rejected, "turn_failed", Some(t.survivors), [], "", t.session, t.modelId))
    else match Verdicts(t.document, MutantKeys(t.survivors), show)
      case Raises => Raises
      case Returns(p) =>
        Returns(ReviewDecision(p.outcome, p.reason, Some(t.survivors), p.verdicts, t.digest, t.session, t.modelId))
  }

  /** A turn that changed the workspace, and one that did not complete, are rejected for that, without verdicts; only
      otherwise is the file read, and its answer becomes the decision's. */
  lemma TurnDecided(t: Turn, show: Json -> string)
    ensures !t.treeKept ==>
      Interpret(t, show) == Returns(ReviewDecision(Rejected, "review_modified_workspace", Some(t.survivors), [], "",
                                                   t.session, t.modelId))
    ensures t.treeKept && t.status !in {"", "completed"} ==>
      Interpret(t, show) == Returns(ReviewDecision(Rejected, "turn_failed", Some(t.survivors), [], "", t.session,
                                                   t.modelId))
    ensures t.treeKept && t.status in {"", "completed"} ==>
      var answer := Verdicts(t.document, MutantKeys(t.survivors), show);
      && (Interpret(t, show).Raises? <==> answer.Raises?)
      && (answer.Returns? ==> Interpret(t, show) == Returns(ReviewDecision(
            answer.value.outcome, answer.value.reason, Some(t.survivors), answer.value.verdicts, t.digest, t.session,
            t.modelId)))
  {
    hide Verdicts, MutantKeys;
  }

  predicate Accepted(d: ReviewDecision) { d.outcome == AllEquivalent && d.survivors.Some? }

  /** The survivors the review was shown. */
  function Shown(d: ReviewDecision): Survivors
    requires Accepted(d)
  {
    d.survivors.value
  }

  function Fingerprints(d: ReviewDecision): map<string, string>
    requires Accepted(d)
  {
    Shown(d).fingerprints
  }

  /** The keys any of the reviews covers. */
  function ReviewedKeys(reviews: seq<ReviewDecision>): set<string>
    requires forall i :: 0 <= i < |reviews| ==> Accepted(reviews[i])
  {
    set i, key | 0 <= i < |reviews| && key in MutantKeys(Shown(reviews[i])) :: key
  }

  /** The reviews' fingerprints, later reviews overriding earlier ones. */
  function Merged(reviews: seq<ReviewDecision>): map<string, string>
    requires forall i :: 0 <= i < |reviews| ==> Accepted(reviews[i])
  {
    if reviews == [] then map[]
    else Merged(reviews[..|reviews| - 1]) + Fingerprints(reviews[|reviews| - 1])
  }

  datatype Gate = Gate(testsPassed: bool, coveragePassed: bool, mutationOnly: bool)

  /** Why the fresh result is not excused; the empty text when it is. */
  function Refusal(reviews: seq<ReviewDecision>, rerun: Option<Survivors>, gate: Gate): string {
    if reviews == [] then "no_review"
    else if exists i :: 0 <= i < |reviews| && !Accepted(reviews[i]) then "review_not_all_equivalent"
    else if !gate.testsPassed then "tests_failed"
    else if !gate.coveragePassed then "coverage_failed"
    else if !gate.mutationOnly then "not_mutation_only"
    else if rerun == None then "survivors_unproven"
    else if rerun.value.unreviewed != 0 || exists i :: 0 <= i < |reviews| && Shown(reviews[i]).unreviewed != 0 then
      "unreviewed_scoring_failures"
    else if MutantKeys(rerun.value) != ReviewedKeys(reviews) then "survivor_set_changed"
    else if rerun.value.fingerprints != Merged(reviews) then "fingerprint_changed"
    else ""
  }

  /** There are reviews, and all of them are accepted. */
  predicate AllAccepted(reviews: seq<ReviewDecision>) {
    && reviews != []
    && forall i :: 0 <= i < |reviews| ==> reviews[i].outcome == AllEquivalent && reviews[i].survivors.Some?
  }

  /** Some review, or the fresh run, has unreviewed failures. */
  predicate SomeUnreviewed(reviews: seq<ReviewDecision>, rerun: Survivors)
    requires AllAccepted(reviews)
  {
    rerun.unreviewed != 0 || exists i :: 0 <= i < |reviews| && Shown(reviews[i]).unreviewed != 0
  }

  /** The fresh run's survivors are exactly those some review was shown. */
  ghost predicate SameSurvivors(reviews: seq<ReviewDecision>, rerun: Survivors)
    requires AllAccepted(reviews)
  {
    forall key :: key in MutantKeys(rerun) <==> exists i :: 0 <= i < |reviews| && key in MutantKeys(Shown(reviews[i]))
  }

  /** Which of the ten answers is given: the cases exclude each other and leave none out, each stands for one reason,
      and the reasons are tried in this order. */
  lemma RefusalExactly(reviews: seq<ReviewDecision>, rerun: Option<Survivors>, gate: Gate)
    ensures var r := Refusal(reviews, rerun, gate);
      && (reviews == [] ==> r == "no_review")
      && (reviews != [] && !AllAccepted(reviews) ==> r == "review_not_all_equivalent")
      && (AllAccepted(reviews) ==>
            && (!gate.testsPassed ==> r == "tests_failed")
            && (gate.testsPassed && !gate.coveragePassed ==> r == "coverage_failed")
            && (gate.testsPassed && gate.coveragePassed && !gate.mutationOnly ==> r == "not_mutation_only")
            && (gate == Gate(true, true, true) && rerun == None ==> r == "survivors_unproven"))
    ensures AllAccepted(reviews) && gate == Gate(true, true, true) && rerun.Some? ==>
      Refusal(reviews, rerun, gate) ==
        if SomeUnreviewed(reviews, rerun.value) then "unreviewed_scoring_failures"
        else if !SameSurvivors(reviews, rerun.value) then "survivor_set_changed"
        else if rerun.value.fingerprints != Merged(reviews) then "fingerprint_changed"
        else ""
  {
    if AllAccepted(reviews) && rerun.Some? { SameKeys(reviews, rerun.value); }
    hide MutantKeys, ReviewedKeys, Merged, SameSurvivors;
  }

  lemma SameKeys(reviews: seq<ReviewDecision>, rerun: Survivors)
    requires AllAccepted(reviews)
    ensures SameSurvivors(reviews, rerun) <==> MutantKeys(rerun) == ReviewedKeys(reviews)
  {
    hide MutantKeys;
    assert forall key ::
      key in ReviewedKeys(reviews) <==> exists i :: 0 <= i < |reviews| && key in MutantKeys(Shown(reviews[i]));
  }

  /** `decide_grant`. */
  method DecideGrant(reviews: seq<ReviewDecision>, rerun: Option<Survivors>, gate: Gate)
    returns (granted: bool, reason: string)
    ensures reason == Refusal(reviews, rerun, gate)
    ensures granted <==> reason == ""
  {
    hide MutantKeys;
    if reviews == [] { return false, "no_review"; }
    if exists i :: 0 <= i < |reviews| && !Accepted(reviews[i]) { return false, "review_not_all_equivalent"; }
    if !gate.testsPassed { return false, "tests_failed"; }
    if !gate.coveragePassed { return false, "coverage_failed"; }
    if !gate.mutationOnly { return false, "not_mutation_only"; }
    if rerun == None { return false, "survivors_unproven"; }
    if rerun.value.unreviewed != 0 || exists i :: 0 <= i < |reviews| && Shown(reviews[i]).unreviewed != 0 {
      return false, "unreviewed_scoring_failures";
    }
    if MutantKeys(rerun.value) != ReviewedKeys(reviews) { return false, "survivor_set_changed"; }
    var fingerprints: map<string, string> := map[];
    for i := 0 to |reviews|
      invariant fingerprints == Merged(reviews[..i])
    {
      assert reviews[..i + 1][..i] == reviews[..i];
      fingerprints := fingerprints + Fingerprints(reviews[i]);
    }
    assert reviews[..|reviews|] == reviews;
    if rerun.value.fingerprints != fingerprints { return false, "fingerprint_changed"; }
    return true, "";
  }

  /** Review `i` is the last to name the path. */
  ghost predicate LastNaming(reviews: seq<ReviewDecision>, i: nat, path: string)
    requires i < |reviews| && forall j :: 0 <= j < |reviews| ==> Accepted(reviews[j])
  {
    path in Fingerprints(reviews[i]) && forall j :: i < j < |reviews| ==> path !in Fingerprints(reviews[j])
  }

  lemma {:induction false} NamedIsMerged(reviews: seq<ReviewDecision>, i: nat, path: string)
    requires forall i :: 0 <= i < |reviews| ==> Accepted(reviews[i])
    requires i < |reviews| && path in Fingerprints(reviews[i])
    ensures path in Merged(reviews)
  {
    hide Fingerprints;
    if i < |reviews| - 1 { NamedIsMerged(reviews[..|reviews| - 1], i, path); }
  }

  lemma {:induction false} LastNamer(reviews: seq<ReviewDecision>, path: string) returns (i: nat)
    requires forall i :: 0 <= i < |reviews| ==> Accepted(reviews[i])
    requires path in Merged(reviews)
    ensures i < |reviews| && LastNaming(reviews, i, path) && Merged(reviews)[path] == Fingerprints(reviews[i])[path]
  {
    hide Fingerprints;
    var last := |reviews| - 1;
    if path in Fingerprints(reviews[last]) {
      i := last;
    } else {
      i := LastNamer(reviews[..last], path);
      assert forall j :: 0 <= j < last ==> reviews[..last][j] == reviews[j];
    }
  }

  /** A path is fingerprinted exactly when some review names it, with the digest the last such review saw. */
  lemma MergedIsLast(reviews: seq<ReviewDecision>, path: string)
    requires forall i :: 0 <= i < |reviews| ==> Accepted(reviews[i])
    ensures path in Merged(reviews) <==> exists i :: 0 <= i < |reviews| && path in Fingerprints(reviews[i])
    ensures path in Merged(reviews) ==> exists i :: 0 <= i < |reviews| && LastNaming(reviews, i, path)
    ensures forall i :: 0 <= i < |reviews| && LastNaming(reviews, i, path) ==>
      path in Merged(reviews) && Merged(reviews)[path] == Fingerprints(reviews[i])[path]
  {
    hide Merged, Fingerprints;
    forall i | 0 <= i < |reviews| && path in Fingerprints(reviews[i]) ensures path in Merged(reviews) {
      NamedIsMerged(reviews, i, path);
    }
    if path in Merged(reviews) {
      var i := LastNamer(reviews, path);
      assert forall j :: 0 <= j < |reviews| && LastNaming(reviews, j, path) ==> j == i;
    }
  }

  /** No two reviews give one path different digests. */
  ghost predicate Agree(reviews: seq<ReviewDecision>)
    requires forall i :: 0 <= i < |reviews| ==> Accepted(reviews[i])
  {
    forall i, j, path ::
      0 <= i < |reviews| && 0 <= j < |reviews| && path in Fingerprints(reviews[i]) && path in Fingerprints(reviews[j])
      ==> Fingerprints(reviews[i])[path] == Fingerprints(reviews[j])[path]
  }

  /** Under a grant every review saw the source the fresh run saw exactly when the reviews agree with each other: an
      earlier review's digest is not compared when a later review names the same path. */
  lemma SourceUnchangedIff(reviews: seq<ReviewDecision>, rerun: Option<Survivors>, gate: Gate)
    requires Refusal(reviews, rerun, gate) == ""
    ensures rerun.Some? && forall i :: 0 <= i < |reviews| ==> Accepted(reviews[i])
    ensures Agree(reviews) <==> forall i, path :: 0 <= i < |reviews| && path in Fingerprints(reviews[i]) ==>
      SameDigest(reviews[i], rerun.value.fingerprints, path)
  {
    hide MutantKeys, ReviewedKeys, Merged, Fingerprints;
    assert rerun.value.fingerprints == Merged(reviews);
    if Agree(reviews) {
      forall i, path | 0 <= i < |reviews| && path in Fingerprints(reviews[i])
        ensures SameDigest(reviews[i], rerun.value.fingerprints, path)
      {
        MergedIsLast(reviews, path);
        var last :| 0 <= last < |reviews| && LastNaming(reviews, last, path);
      }
    }
    if forall i, path ::
      0 <= i < |reviews| && path in Fingerprints(reviews[i]) ==> SameDigest(reviews[i], rerun.value.fingerprints, path)
    {
      forall i, j, path |
        0 <= i < |reviews| && 0 <= j < |reviews| && path in Fingerprints(reviews[i]) && path in Fingerprints(reviews[j])
        ensures Fingerprints(reviews[i])[path] == Fingerprints(reviews[j])[path]
      {
        assert SameDigest(reviews[i], rerun.value.fingerprints, path);
        assert SameDigest(reviews[j], rerun.value.fingerprints, path);
      }
    }
  }

  predicate SameDigest(d: ReviewDecision, fingerprints: map<string, string>, path: string)
    requires Accepted(d) && path in Fingerprints(d)
  {
    path in fingerprints && fingerprints[path] == Fingerprints(d)[path]
  }

  /** The reviews are what the turns' decisions load back as. */
  ghost predicate SavedReviews(turns: seq<Turn>, reviews: seq<ReviewDecision>, show: Json -> string) {
    |turns| == |reviews| && forall i :: 0 <= i < |turns| ==> SavedReview(turns[i], reviews[i], show)
  }

  ghost predicate SavedReview(t: Turn, d: ReviewDecision, show: Json -> string) {
    Interpret(t, show).Returns? && Load(Save(Interpret(t, show).value), show) == Returns(d)
  }

  /** A turn that may be used proves its survivors: the workspace is unchanged, the turn completed, and the verdict file
      proves every survivor it was shown. */
  ghost predicate ProvesSurvivors(t: Turn, show: Json -> string) {
    && t.treeKept && t.status in {"", "completed"}
    && exists items :: Presents(t.document, items) && ProvesAll(Readings(items, show), MutantKeys(t.survivors))
  }

  /** A turn's decision reaches the grant unchanged, and is accepted exactly when the turn proves its survivors. */
  lemma ReviewReachesGrant(t: Turn, d: ReviewDecision, show: Json -> string)
    requires SavedReview(t, d, show)
    ensures d == Interpret(t, show).value && d.survivors == Some(t.survivors)
    ensures Accepted(d) <==> ProvesSurvivors(t, show)
    ensures Accepted(d) ==> exists items :: Presents(t.document, items) && Lists(d.verdicts, Readings(items, show))
  {
    hide Save, Load, Verdicts, Presents, ProvesAll, Lists, Argued, MutantKeys;
    var decision := Interpret(t, show).value;
    VerdictsArgued(t.document, MutantKeys(t.survivors), show);
    SaveLoad(decision, show);
    AcceptedIff(t.document, MutantKeys(t.survivors), show);
  }

  lemma VerdictsArgued(document: Option<Json>, expected: set<string>, show: Json -> string)
    ensures var r := Verdicts(document, expected, show);
      r.Returns? ==> forall i :: 0 <= i < |r.value.verdicts| ==> Argued(r.value.verdicts[i])
  {
    hide ItemsOf, Argued, ReadAll, VerdictFrom, KeysOf;
    if ItemsOf(document).Some? { ReadAllArgued(Readings(ItemsOf(document).value, show), expected); }
  }

  lemma {:induction false} ReadAllArgued(readings: seq<ItemReading>, expected: set<string>)
    requires forall k :: 0 <= k < |readings| && IsVerdict(readings[k]) ==> Argued(VerdictOf(readings[k]))
    ensures var r := ReadAll(readings, expected);
      r.Returns? && r.value.Some? ==> forall i :: 0 <= i < |r.value.value| ==> Argued(r.value.value[i])
  {
    hide Argued, KeysOf;
    if readings != [] { ReadAllArgued(readings[..|readings| - 1], expected); }
  }

  /** Some review covers the mutant, with an `equivalent` verdict, a region and an argument. */
  ghost predicate Excused(key: string, reviews: seq<ReviewDecision>) {
    exists i, k :: 0 <= i < |reviews| && 0 <= k < |reviews[i].verdicts| && ExcusedBy(key, reviews[i].verdicts[k])
  }

  predicate ExcusedBy(key: string, v: MutantVerdict) {
    v.key == key && v.verdict == Equivalent && !Blank(v.region) && !Blank(v.argument)
  }

  ghost predicate Covered(key: string, turns: seq<Turn>) {
    exists i :: 0 <= i < |turns| && key in MutantKeys(turns[i].survivors)
  }

  ghost predicate LastToName(turns: seq<Turn>, i: nat, path: string)
    requires i < |turns|
  {
    path in turns[i].survivors.fingerprints && forall j :: i < j < |turns| ==> path !in turns[j].survivors.fingerprints
  }

  /** The fingerprints name the paths the turns name, each with the digest the last turn to name it saw. */
  ghost predicate LatestFingerprints(fingerprints: map<string, string>, turns: seq<Turn>) {
    && (forall path ::
         path in fingerprints <==> exists i :: 0 <= i < |turns| && path in turns[i].survivors.fingerprints)
    && forall i, path :: 0 <= i < |turns| && LastToName(turns, i, path) ==>
         path in fingerprints && fingerprints[path] == turns[i].survivors.fingerprints[path]
  }

  ghost predicate Reviewed(turns: seq<Turn>, reviews: seq<ReviewDecision>) {
    && |turns| == |reviews|
    && forall i :: 0 <= i < |turns| ==> Accepted(reviews[i]) && Shown(reviews[i]) == turns[i].survivors
  }

  lemma CoveredIff(turns: seq<Turn>, reviews: seq<ReviewDecision>, key: string)
    requires Reviewed(turns, reviews)
    ensures key in ReviewedKeys(reviews) <==> Covered(key, turns)
  {
    hide MutantKeys;
    if i :| 0 <= i < |turns| && key in MutantKeys(turns[i].survivors) {
      assert key in MutantKeys(Shown(reviews[i]));
    }
    if key in ReviewedKeys(reviews) {
      var i :| 0 <= i < |reviews| && key in MutantKeys(Shown(reviews[i]));
      assert key in MutantKeys(turns[i].survivors);
    }
  }

  lemma LatestIff(turns: seq<Turn>, reviews: seq<ReviewDecision>, path: string)
    requires Reviewed(turns, reviews)
    ensures path in Merged(reviews) <==> exists i :: 0 <= i < |turns| && path in turns[i].survivors.fingerprints
    ensures path in Merged(reviews) ==> exists i :: 0 <= i < |turns| && LastToName(turns, i, path)
    ensures forall i :: 0 <= i < |turns| && LastToName(turns, i, path) ==>
      path in Merged(reviews) && Merged(reviews)[path] == turns[i].survivors.fingerprints[path]
  {
    hide Merged;
    MergedIsLast(reviews, path);
    forall i | 0 <= i < |turns|
      ensures LastToName(turns, i, path) <==> LastNaming(reviews, i, path)
      ensures Fingerprints(reviews[i]) == turns[i].survivors.fingerprints
    {
    }
  }

  lemma FingerprintsIff(turns: seq<Turn>, reviews: seq<ReviewDecision>, fingerprints: map<string, string>)
    requires Reviewed(turns, reviews)
    ensures fingerprints == Merged(reviews) <==> LatestFingerprints(fingerprints, turns)
  {
    hide Merged, LastToName, Reviewed;
    MergedIsLatest(turns, reviews);
    if LatestFingerprints(fingerprints, turns) { LatestIsUnique(turns, reviews, fingerprints); }
  }

  lemma MergedIsLatest(turns: seq<Turn>, reviews: seq<ReviewDecision>)
    requires Reviewed(turns, reviews)
    ensures LatestFingerprints(Merged(reviews), turns)
  {
    hide Merged, LastToName;
    forall path { LatestIff(turns, reviews, path); }
  }

  lemma LatestIsUnique(turns: seq<Turn>, reviews: seq<ReviewDecision>, fingerprints: map<string, string>)
    requires Reviewed(turns, reviews) && LatestFingerprints(fingerprints, turns)
    ensures fingerprints == Merged(reviews)
  {
    hide Merged, LastToName;
    forall path ensures path in fingerprints <==> path in Merged(reviews) {
      LatestIff(turns, reviews, path);
    }
    forall path | path in Merged(reviews) ensures fingerprints[path] == Merged(reviews)[path] {
      LatestIff(turns, reviews, path);
      var i :| 0 <= i < |turns| && LastToName(turns, i, path);
    }
  }

  /** The grant, from the verdict files to the fresh run: it goes through exactly when there is a review, every turn
      proves its survivors, the gate failed on mutation alone, nothing unreviewed lowers a score, the fresh survivors
      are exactly the reviewed ones, and every path carries the digest the last review of it saw. */
  lemma GrantIff(turns: seq<Turn>, reviews: seq<ReviewDecision>, rerun: Option<Survivors>, gate: Gate,
                 show: Json -> string)
    requires SavedReviews(turns, reviews, show)
    ensures Refusal(reviews, rerun, gate) == "" <==>
      && turns != []
      && (forall i :: 0 <= i < |turns| ==> ProvesSurvivors(turns[i], show) && turns[i].survivors.unreviewed == 0)
      && gate == Gate(true, true, true)
      && rerun.Some? && rerun.value.unreviewed == 0
      && (forall key :: key in MutantKeys(rerun.value) <==> Covered(key, turns))
      && LatestFingerprints(rerun.value.fingerprints, turns)
  {
    hide SavedReview, ProvesSurvivors, MutantKeys, ReviewedKeys, Merged, Covered, LatestFingerprints;
    forall i | 0 <= i < |turns|
      ensures Accepted(reviews[i]) <==> ProvesSurvivors(turns[i], show)
      ensures reviews[i].survivors == Some(turns[i].survivors)
    {
      ReviewReachesGrant(turns[i], reviews[i], show);
    }
    if Reviewed(turns, reviews) {
      forall key { CoveredIff(turns, reviews, key); }
      if rerun.Some? { FingerprintsIff(turns, reviews, rerun.value.fingerprints); }
    }
  }

  /** Grant soundness: every fresh survivor is excused by an argued verdict, no review covers a mutant the fresh
      run lacks, and nothing else lowers the score. */
  lemma GrantIsSound(turns: seq<Turn>, reviews: seq<ReviewDecision>, rerun: Option<Survivors>, gate: Gate,
                     show: Json -> string)
    requires SavedReviews(turns, reviews, show) && Refusal(reviews, rerun, gate) == ""
    ensures rerun.Some? && rerun.value.unreviewed == 0 && gate == Gate(true, true, true)
    ensures forall k :: 0 <= k < |rerun.value.mutants| ==> Excused(rerun.value.mutants[k].key, reviews)
    ensures forall i, k :: 0 <= i < |turns| && 0 <= k < |turns[i].survivors.mutants| ==>
      turns[i].survivors.mutants[k].key in MutantKeys(rerun.value)
  {
    hide SavedReview, ProvesSurvivors, LatestFingerprints, Excused, Refusal;
    GrantIff(turns, reviews, rerun, gate, show);
    forall k | 0 <= k < |rerun.value.mutants| ensures Excused(rerun.value.mutants[k].key, reviews) {
      var key := rerun.value.mutants[k].key;
      assert key in MutantKeys(rerun.value);
      var i :| 0 <= i < |turns| && key in MutantKeys(turns[i].survivors);
      ProvedIsExcused(turns, reviews, i, key, show);
    }
    forall i, k | 0 <= i < |turns| && 0 <= k < |turns[i].survivors.mutants|
      ensures turns[i].survivors.mutants[k].key in MutantKeys(rerun.value)
    {
      assert Covered(turns[i].survivors.mutants[k].key, turns);
    }
  }

  lemma ProvedIsExcused(turns: seq<Turn>, reviews: seq<ReviewDecision>, i: nat, key: string, show: Json -> string)
    requires SavedReviews(turns, reviews, show) && i < |turns|
    requires ProvesSurvivors(turns[i], show) && key in MutantKeys(turns[i].survivors)
    ensures Excused(key, reviews)
  {
    hide SavedReview, MutantKeys, AllAdmissible, Presents;
    ReviewReachesGrant(turns[i], reviews[i], show);
    OnePresentation(turns[i].document);
    var items :| Presents(turns[i].document, items) && Lists(reviews[i].verdicts, Readings(items, show));
    var readings, vs := Readings(items, show), reviews[i].verdicts;
    var k :| 0 <= k < |readings| && ReadsKey(readings[k], key);
    assert vs[k] == VerdictOf(readings[k]);
    ArguedExcuses(vs[k]);
    assert ExcusedBy(key, vs[k]);
  }

  lemma OnePresentation(document: Option<Json>)
    ensures forall a, b :: Presents(document, a) && Presents(document, b) ==> a == b
  {
  }

  lemma ArguedExcuses(v: MutantVerdict)
    requires Argued(v) && v.verdict == Equivalent
    ensures ExcusedBy(v.key, v)
  {
    StrippedNotBlank(v.region);
    StrippedNotBlank(v.argument);
  }

  lemma StrippedNotBlank(s: string)
    requires Stripped(s) && s != ""
    ensures !Blank(s)
  {
    assert !IsSpace(s[0]);
  }

  // ---- a grant on a stale review ----

  /** A verdict file in the form the review is asked for, with one verdict. */
  function RequestedFile(key: string, verdict: string, region: string, argument: string): Json {
    Object(map["verdicts" := List([RequestedItem(key, verdict, region, argument)])])
  }

  function RequestedItem(key: string, verdict: string, region: string, argument: string): Json {
    Object(map["key" := Str(key), "verdict" := Str(verdict), "divergence_region" := Str(region),
               "why_indistinguishable" := Str(argument), "source_lines" := List([Int(1), Int(2)])])
  }

  /** A completed turn over one mutant of file "A" at the given digest, whose verdict file argues it equivalent. */
  function OneMutantTurn(key: string, digest: string): Turn {
    Turn(OneMutant([key], digest), true, "completed",
         Some(RequestedFile(key, "equivalent", "all inputs", "no effect")), "", map[], "")
  }

  function OneMutant(keys: seq<string>, digest: string): Survivors {
    Survivors("java", Mutants(keys), 0, map["A" := digest], 50.0, 60.0)
  }

  function Mutants(keys: seq<string>): (ms: seq<MutantIdentity>)
    ensures |ms| == |keys| && forall i :: 0 <= i < |keys| ==> ms[i].key == keys[i]
  {
    seq(|keys|, i requires 0 <= i < |keys| => MutantIdentity(keys[i], "A", 1, "math", "", ""))
  }

  lemma KeyOfOne(key: string, digest: string)
    ensures MutantKeys(OneMutant([key], digest)) == {key}
  {
    assert OneMutant([key], digest).mutants[0].key == key;
  }

  lemma KeysOfTwo(key: string, key': string, digest: string)
    ensures MutantKeys(OneMutant([key, key'], digest)) == {key, key'}
  {
    var mutants := OneMutant([key, key'], digest).mutants;
    assert mutants[0].key == key && mutants[1].key == key';
  }

  lemma OneMutantProven(key: string, digest: string, show: Json -> string)
    requires key != "" && Stripped(key)
    ensures ProvesSurvivors(OneMutantTurn(key, digest), show)
  {
    hide VerdictFrom, MutantKeys, OneMutant, Stripped;
    RequestedReads(key, show);
    KeyOfOne(key, digest);
    var items := [RequestedItem(key, "equivalent", "all inputs", "no effect")];
    assert Presents(OneMutantTurn(key, digest).document, items);
    assert ReadsKey(Readings(items, show)[0], key);
  }

  lemma RequestedReads(key: string, show: Json -> string)
    requires key != "" && Stripped(key)
    ensures VerdictFrom(RequestedItem(key, "equivalent", "all inputs", "no effect"), show)
         == Returns(Some(MutantVerdict(key, Equivalent, "all inputs", "no effect", [1, 2])))
  {
    var v := MutantVerdict(key, Equivalent, "all inputs", "no effect", [1, 2]);
    assert Argued(v);
    RequestedLines();
    hide VerdictFrom, Argued;
    ReadsBack(RequestedItem(key, "equivalent", "all inputs", "no effect").fields, v, show);
  }

  lemma RequestedLines()
    ensures LinesOf(List([Int(1), Int(2)])) == Returns([1, 2])
  {
    var items := [Int(1), Int(2)];
    assert items[1..] == [Int(2)] && [Int(2)][1..] == [];
    assert IntLines([Int(2)]) == [2];
    assert IntLines(items) == [1] + IntLines(items[1..]) == [1, 2];
    assert Truthy(List(items));
  }

  /** Decisions that came from turns reach the grant unchanged. */
  lemma TurnIsSaved(t: Turn, show: Json -> string) returns (d: ReviewDecision)
    requires ProvesSurvivors(t, show)
    ensures SavedReview(t, d, show)
  {
    hide Save, Load, Verdicts, Presents, ProvesAll, Argued;
    AcceptedIff(t.document, MutantKeys(t.survivors), show);
    VerdictsArgued(t.document, MutantKeys(t.survivors), show);
    d := Interpret(t, show).value;
    SaveLoad(d, show);
  }

  const STALE_TURN: Turn := OneMutantTurn("k0", "old")
  const CURRENT_TURN: Turn := OneMutantTurn("k1", "new")
  const FRESH_RUN: Survivors := OneMutant(["k0", "k1"], "new")

  /** The turns' saved reviews excuse the fresh run. */
  ghost predicate Granted(turns: seq<Turn>, reviews: seq<ReviewDecision>, rerun: Survivors, show: Json -> string) {
    SavedReviews(turns, reviews, show) && Refusal(reviews, Some(rerun), Gate(true, true, true)) == ""
  }

  /** It happens: two reviews saw one file at different digests, each with a survivor of its own, and the grant goes
      through on the later one's digest, although the first review argued over other source. */
  lemma StaleReviewGranted(show: Json -> string)
    ensures exists reviews :: Granted([STALE_TURN, CURRENT_TURN], reviews, FRESH_RUN, show)
    ensures STALE_TURN.survivors.fingerprints["A"] != FRESH_RUN.fingerprints["A"]
    ensures STALE_TURN.survivors.mutants != [] && CURRENT_TURN.survivors.mutants != []
  {
    hide Stripped, ProvesSurvivors, SavedReview, MutantKeys, LatestFingerprints, Covered, RequestedFile, Refusal;
    var turns := [STALE_TURN, CURRENT_TURN];
    StaleTurnsProven(show);
    var d0 := TurnIsSaved(STALE_TURN, show);
    var d1 := TurnIsSaved(CURRENT_TURN, show);
    var reviews := [d0, d1];
    forall key ensures key in MutantKeys(FRESH_RUN) <==> Covered(key, turns) { StaleKeysCovered(key); }
    StaleDigestsLatest();
    GrantIff(turns, reviews, Some(FRESH_RUN), Gate(true, true, true), show);
    assert Granted(turns, reviews, FRESH_RUN, show);
  }

  lemma StaleTurnsProven(show: Json -> string)
    ensures ProvesSurvivors(STALE_TURN, show) && ProvesSurvivors(CURRENT_TURN, show)
  {
    hide ProvesSurvivors;
    OneMutantProven("k0", "old", show);
    OneMutantProven("k1", "new", show);
  }

  lemma StaleKeysCovered(key: string)
    ensures key in MutantKeys(FRESH_RUN) <==> Covered(key, [STALE_TURN, CURRENT_TURN])
  {
    hide MutantKeys;
    var turns := [STALE_TURN, CURRENT_TURN];
    KeysOfTwo("k0", "k1", "new");
    KeyOfOne("k0", "old");
    KeyOfOne("k1", "new");
    assert key in MutantKeys(turns[0].survivors) <==> key == "k0";
    assert key in MutantKeys(turns[1].survivors) <==> key == "k1";
  }

  lemma StaleDigestsLatest()
    ensures LatestFingerprints(FRESH_RUN.fingerprints, [STALE_TURN, CURRENT_TURN])
  {
    var turns := [STALE_TURN, CURRENT_TURN];
    assert "A" in turns[0].survivors.fingerprints && "A" in turns[1].survivors.fingerprints;
  }
}
