/**
 * The story text format of `src/adventure.rs`.
 *
 * An adventure file and a page file are read line by line; each line is
 * classified by the tag it starts with (`title:`, `story:`, ...), and the
 * text after the tag is either kept (trimmed) or read as a `;`-separated
 * field list. The field-list readers and the choice reader are functions;
 * the two line loops are methods proved equal to prefix folds, and the folds
 * are characterised field by field.
 */
module AdventureFormat {
  import opened Wrappers
  import opened Strings
  import opened ChoiceTags

  datatype Comparison = Greater | GreaterEqual | Less | LessEqual | Equal | NotEqual

  /** A story record. The source stores its value as a float; here it is an integer. */
  datatype Record = Record(category: string, name: string, value: int)

  datatype Name = Name(keyword: string, name: string)

  /** A named result: the name a choice refers to and its command list. */
  datatype StoryResult = StoryResult(name: string, expression: string)

  datatype Test = Test(name: string, expressionL: string, comparison: Comparison, expressionR: string,
                       successResult: string, failureResult: string)

  /** A choice's display text and the names of the condition, test and result it refers to ("" if none). */
  datatype Choice = Choice(text: string, condition: string, test: string, result: string)

  datatype Condition = Condition(name: string, expressionL: string, comparison: Comparison, expressionR: string)

  datatype Page = Page(title: string, story: string, choices: seq<Choice>, conditions: seq<Condition>,
                       tests: seq<Test>, results: seq<StoryResult>)

  datatype Adventure = Adventure(title: string, description: string, path: string, start: string,
                                 records: seq<Record>, names: seq<Name>)

  // ----- Comparison -----

  /** `Comparison::from`: five symbols are recognised after trimming; everything else is `LessEqual`. */
  function ComparisonFrom(item: string): (c: Comparison)
    ensures c == Greater <==> Trim(item) == ">"
    ensures c == GreaterEqual <==> Trim(item) == ">="
    ensures c == Equal <==> Trim(item) == "="
    ensures c == NotEqual <==> Trim(item) == "!"
    ensures c == Less <==> Trim(item) == "<"
    ensures c == LessEqual <==> Trim(item) !in {">", ">=", "=", "!", "<"}
  {
    var t := Trim(item);
    if t == ">" then Greater
    else if t == ">=" then GreaterEqual
    else if t == "=" then Equal
    else if t == "!" then NotEqual
    else if t == "<" then Less
    else LessEqual
  }

  /** The symbol an author writes for each comparison. */
  function Symbol(c: Comparison): string {
    match c
    case Greater => ">"
    case GreaterEqual => ">="
    case Less => "<"
    case LessEqual => "<="
    case Equal => "="
    case NotEqual => "!"
  }

  /** Every comparison is read back from its symbol, and the symbol is a valid field. */
  lemma ComparisonSymbol(c: Comparison)
    ensures ComparisonFrom(Symbol(c)) == c
    ensures IsField(Symbol(c))
  {
    var s := Symbol(c);
    assert forall i :: 0 <= i < |s| ==> s[i] in {'<', '>', '=', '!'};
    TrimTrimmed(s);
  }

  /** What `Comparison::compare(l, r)` means, read from the variant names (`Less` is `l < r`). */
  predicate Compare(c: Comparison, l: int, r: int) {
    match c
    case Greater => l > r
    case GreaterEqual => l >= r
    case Less => l < r
    case LessEqual => l <= r
    case Equal => l == r
    case NotEqual => l != r
  }

  // ----- field-list records -----

  /** `Condition::parse_from_string`: exactly four fields, read as name, left expression, comparison, right expression. */
  function ParseCondition(text: string): (r: Result<Condition, ()>)
    ensures r.Ok? <==> |Fields(text)| == 4
    ensures r.Ok? ==> IsField(r.value.name) && IsField(r.value.expressionL) && IsField(r.value.expressionR)
  {
    var args := Fields(text);
    if |args| != 4 then Err(())
    else Ok(Condition(args[0], args[1], ComparisonFrom(args[2]), args[3]))
  }

  function FormatCondition(c: Condition): string {
    Join([c.name, c.expressionL, Symbol(c.comparison), c.expressionR], ';')
  }

  /** A condition written out as fields is read back unchanged. */
  lemma ConditionRoundTrip(c: Condition)
    requires IsField(c.name) && IsField(c.expressionL) && IsField(c.expressionR)
    ensures ParseCondition(FormatCondition(c)) == Ok(c)
  {
    ComparisonSymbol(c.comparison);
    FieldsJoin([c.name, c.expressionL, Symbol(c.comparison), c.expressionR]);
  }

  /** `Test::parse_from_string`: exactly six fields, read as name, left expression, comparison, right expression, success and failure results. */
  function ParseTest(text: string): (r: Result<Test, ()>)
    ensures r.Ok? <==> |Fields(text)| == 6
    ensures r.Ok? ==> IsField(r.value.name) && IsField(r.value.expressionL) && IsField(r.value.expressionR)
    ensures r.Ok? ==> IsField(r.value.successResult) && IsField(r.value.failureResult)
  {
    var args := Fields(text);
    if |args| != 6 then Err(())
    else Ok(Test(args[0], args[1], ComparisonFrom(args[2]), args[3], args[4], args[5]))
  }

  function FormatTest(t: Test): string {
    Join([t.name, t.expressionL, Symbol(t.comparison), t.expressionR, t.successResult, t.failureResult], ';')
  }

  /** A test written out as fields is read back unchanged. */
  lemma TestRoundTrip(t: Test)
    requires IsField(t.name) && IsField(t.expressionL) && IsField(t.expressionR)
    requires IsField(t.successResult) && IsField(t.failureResult)
    ensures ParseTest(FormatTest(t)) == Ok(t)
  {
    ComparisonSymbol(t.comparison);
    FieldsJoin([t.name, t.expressionL, Symbol(t.comparison), t.expressionR, t.successResult, t.failureResult]);
  }

  /**
   * `StoryResult::parse_from_string`: split at the first `;` only, keep the
   * two trimmed parts when both are non-empty.
   */
  function ParseStoryResult(text: string): (r: Result<StoryResult, ()>)
    ensures r.Ok? ==> r.value.name != [] && IsTrimmed(r.value.name)
    ensures r.Ok? ==> r.value.expression != [] && IsTrimmed(r.value.expression)
  {
    var args := TrimmedNonEmpty(SplitOnce(text, ';'));
    if |args| != 2 then Err(())
    else Ok(StoryResult(args[0], args[1]))
  }

  /** A trimmed part as the field filter keeps it: dropped when empty. */
  function Kept(t: string): seq<string> {
    if t == [] then [] else [t]
  }

  lemma KeptBoth(a: string, b: string)
    requires a != [] && b != []
    ensures Kept(a) + Kept(b) == [a, b]
  {
  }

  lemma StoryResultArgs(text: string)
    ensures var args := TrimmedNonEmpty(SplitOnce(text, ';'));
      match FirstIn(text, {';'})
      case None => |args| <= 1
      case Some(i) => args == Kept(Trim(text[..i])) + Kept(Trim(text[i + 1..]))
  {
    var parts := SplitOnce(text, ';');
    match FirstIn(text, {';'})
    case None =>
    case Some(i) =>
      assert parts == [text[..i], text[i + 1..]];
      assert parts[1..] == [text[i + 1..]];
      assert parts[1..][1..] == [];
  }

  /**
   * A result line is read at its first `;`: the name is the trimmed text
   * before it and the expression the trimmed text after it, later `;`
   * included; it fails without a `;` or when either part is blank.
   */
  lemma StoryResultSplit(text: string)
    ensures FirstIn(text, {';'}).None? ==> ParseStoryResult(text).Err?
    ensures FirstIn(text, {';'}).Some? ==>
      var i := FirstIn(text, {';'}).value;
      var name, expression := Trim(text[..i]), Trim(text[i + 1..]);
      ParseStoryResult(text) == if name != [] && expression != [] then Ok(StoryResult(name, expression)) else Err(())
  {
    StoryResultArgs(text);
    match FirstIn(text, {';'})
    case None =>
    case Some(i) =>
      var name, expression := Trim(text[..i]), Trim(text[i + 1..]);
      if name != [] && expression != [] {
        KeptBoth(name, expression);
      }
  }

  function FormatStoryResult(r: StoryResult): string {
    r.name + "; " + r.expression
  }

  /** A result written as `name; expression` is read back unchanged, whatever `;` the expression holds. */
  lemma StoryResultRoundTrip(r: StoryResult)
    requires IsField(r.name) && r.expression != [] && IsTrimmed(r.expression)
    ensures ParseStoryResult(FormatStoryResult(r)) == Ok(r)
  {
    var text := FormatStoryResult(r);
    var rest := " " + r.expression;
    assert FirstIn(text, {';'}) == Some(|r.name|) by {
      assert text == r.name + [';'] + rest;
      FirstInAfter(r.name, ';', rest, {';'});
    }
    assert text[..|r.name|] == r.name && text[|r.name| + 1..] == rest by {
      assert text == r.name + [';'] + rest;
    }
    assert Trim(r.name) == r.name by {
      TrimTrimmed(r.name);
    }
    assert Trim(rest) == r.expression by {
      TrimPadded(" ", r.expression, "");
      assert " " + r.expression + "" == rest;
    }
    StoryResultSplit(text);
  }

  /** `Record::parse_from_string`: one or two fields, the name and an optional category; the value starts at 0. */
  function ParseRecord(text: string): (r: Result<Record, ()>)
    ensures r.Ok? <==> 1 <= |Fields(text)| <= 2
    ensures r.Ok? ==> r.value.value == 0 && IsField(r.value.name)
    ensures r.Ok? ==> (r.value.category == [] <==> |Fields(text)| == 1)
  {
    var args := Fields(text);
    if |args| == 0 || |args| > 2 then Err(())
    else Ok(Record(if |args| == 2 then args[1] else "", args[0], 0))
  }

  function FormatRecord(r: Record): string {
    if r.category == [] then r.name else Join([r.name, r.category], ';')
  }

  /** A record written out is read back with its name and category, and with value 0. */
  lemma RecordRoundTrip(r: Record)
    requires IsField(r.name) && (r.category == [] || IsField(r.category))
    ensures ParseRecord(FormatRecord(r)) == Ok(r.(value := 0))
  {
    if r.category == [] {
      FieldsJoin([r.name]);
    } else {
      FieldsJoin([r.name, r.category]);
    }
  }

  /** `Name::parse_from_string`: one or two fields, the keyword and an optional name. */
  function ParseName(text: string): (r: Result<Name, ()>)
    ensures r.Ok? <==> 1 <= |Fields(text)| <= 2
    ensures r.Ok? ==> IsField(r.value.keyword) && (r.value.name == [] <==> |Fields(text)| == 1)
  {
    var args := Fields(text);
    if |args| == 0 || |args| > 2 then Err(())
    else Ok(Name(args[0], if |args| == 2 then args[1] else ""))
  }

  function FormatName(n: Name): string {
    if n.name == [] then n.keyword else Join([n.keyword, n.name], ';')
  }

  /** A name written out is read back unchanged. */
  lemma NameRoundTrip(n: Name)
    requires IsField(n.keyword) && (n.name == [] || IsField(n.name))
    ensures ParseName(FormatName(n)) == Ok(n)
  {
    if n.name == [] {
      FieldsJoin([n.keyword]);
    } else {
      FieldsJoin([n.keyword, n.name]);
    }
  }

  // ----- choices -----

  /** `Choice::is_valid`: a display text and exactly one of a test and a result. */
  predicate ChoiceValid(c: Choice) {
    c.text != [] && (c.test == [] <==> c.result != [])
  }

  /**
   * `Choice::parse_from_string`: the `insert_in_choice!` steps for the
   * condition, test and result tags in that order, each on the text the
   * previous step left; then the trimmed remainder is the display text.
   * The in-place edits of the source's `text` are the successive values here.
   */
  function ParseChoice(text: string): (r: Result<Choice, ()>)
    ensures r.Ok? ==> ChoiceValid(r.value) && IsTrimmed(r.value.text)
  {
    var (afterCondition, condition) := ExtractTag(text, "condition");
    var (afterTest, test) := ExtractTag(afterCondition, "test");
    var (rest, result) := ExtractTag(afterTest, "result");
    var choice := Choice(Trim(rest), condition, test, result);
    if ChoiceValid(choice) then Ok(choice) else Err(())
  }

  /** How an author writes a choice: the text, then the condition tag if any, then the test or result tag. */
  function FormatChoice(c: Choice): string {
    c.text + ConditionPart(c) + LinkPart(c)
  }

  /** The choices an author can write: a brace-free display text and well-formed tag names. */
  predicate ChoiceWritable(c: Choice) {
    && c.text != [] && IsTrimmed(c.text) && NoneIn(c.text, {'{'})
    && (c.condition == [] || IsName(c.condition))
    && (c.test == [] <==> c.result != [])
    && (c.test == [] || IsName(c.test))
    && (c.result == [] || IsName(c.result))
  }

  /** The condition tag of a written choice, if it has one. */
  function ConditionPart(c: Choice): string {
    if c.condition == [] then "" else " " + TagText("condition", c.condition)
  }

  /** The link tag of a written choice. */
  function LinkPart(c: Choice): string {
    if c.test != [] then " " + TagText("test", c.test) else " " + TagText("result", c.result)
  }

  /** The display text with the space that stood before the condition tag, if there was one. */
  function Before(c: Choice): string {
    if c.condition == [] then c.text else c.text + " "
  }

  /** What the test step leaves of a written choice. */
  function AfterTest(c: Choice): string {
    if c.test != [] then Before(c) + " " else Before(c) + LinkPart(c)
  }

  lemma ChoiceKeywords()
    ensures IsKeyword("condition") && IsKeyword("test") && IsKeyword("result")
  {
  }

  /**
   * Reading a choice is its three tag steps in order followed by trimming:
   * the outcome is fixed by what each step leaves.
   */
  lemma ParseChoiceSteps(text: string, afterCondition: string, afterTest: string, rest: string, c: Choice)
    requires ExtractTag(text, "condition") == (afterCondition, c.condition)
    requires ExtractTag(afterCondition, "test") == (afterTest, c.test)
    requires ExtractTag(afterTest, "result") == (rest, c.result)
    requires Trim(rest) == c.text
    ensures ParseChoice(text) == if ChoiceValid(c) then Ok(c) else Err(())
  {
  }

  /** The condition step of reading a written choice. */
  lemma ReadConditionStep(c: Choice)
    requires ChoiceWritable(c)
    ensures ExtractTag(FormatChoice(c), "condition") == (Before(c) + LinkPart(c), c.condition)
  {
    if c.condition == [] {
      ReadNoCondition(c);
    } else {
      ReadCondition(c);
    }
  }

  lemma ReadNoCondition(c: Choice)
    requires ChoiceWritable(c) && c.condition == []
    ensures ExtractTag(FormatChoice(c), "condition") == (Before(c) + LinkPart(c), c.condition)
  {
    ChoiceKeywords();
    assert FormatChoice(c) == c.text + LinkPart(c);
    if c.test != [] {
      TagSkipped(c.text, "test", c.test, "condition");
    } else {
      TagSkipped(c.text, "result", c.result, "condition");
    }
  }

  lemma ReadCondition(c: Choice)
    requires ChoiceWritable(c) && c.condition != []
    ensures ExtractTag(FormatChoice(c), "condition") == (Before(c) + LinkPart(c), c.condition)
  {
    ChoiceKeywords();
    assert FormatChoice(c) == (c.text + " ") + TagText("condition", c.condition) + LinkPart(c);
    ExtractInserted(c.text + " ", "condition", c.condition, LinkPart(c));
  }

  /** The test step on what the condition step left. */
  lemma ReadTestStep(c: Choice)
    requires ChoiceWritable(c)
    ensures ExtractTag(Before(c) + LinkPart(c), "test") == (AfterTest(c), c.test)
  {
    ChoiceKeywords();
    assert NoneIn(Before(c), {'{'});
    if c.test != [] {
      TagTaken(Before(c), "test", c.test);
    } else {
      TagSkipped(Before(c), "result", c.result, "test");
    }
  }

  /** The result step on what the test step left. */
  lemma ReadResultStep(c: Choice)
    requires ChoiceWritable(c)
    ensures ExtractTag(AfterTest(c), "result") == (Before(c) + " ", c.result)
  {
    ChoiceKeywords();
    assert NoneIn(Before(c) + " ", {'{'});
    if c.test != [] {
      NoBraceKept(Before(c) + " ", "result");
    } else {
      TagTaken(Before(c), "result", c.result);
    }
  }

  lemma BeforeTrimmed(c: Choice)
    requires ChoiceWritable(c)
    ensures Trim(Before(c) + " ") == c.text
  {
    var sp := if c.condition == [] then " " else "  ";
    assert "" + c.text + sp == Before(c) + " ";
    TrimPadded("", c.text, sp);
  }

  /** Writing a choice out and reading it back gives the same choice. */
  lemma ChoiceRoundTrip(c: Choice)
    requires ChoiceWritable(c)
    ensures ParseChoice(FormatChoice(c)) == Ok(c)
  {
    BeforeTrimmed(c);
    ReadConditionStep(c);
    ReadTestStep(c);
    ReadResultStep(c);
    ParseChoiceSteps(FormatChoice(c), Before(c) + LinkPart(c), AfterTest(c), Before(c) + " ", c);
  }

  /** A choice without any tag links nowhere and is rejected. */
  lemma ChoiceWithoutTagsRejected(text: string)
    requires NoneIn(text, {'{'})
    ensures ParseChoice(text).Err?
  {
    ChoiceKeywords();
    NoBraceKept(text, "condition");
    NoBraceKept(text, "test");
    NoBraceKept(text, "result");
  }

  /** A choice that carries both a test tag and a result tag is rejected. */
  lemma ChoiceWithTestAndResultRejected(text: string, test: string, result: string)
    requires NoneIn(text, {'{'}) && IsName(test) && IsName(result)
    ensures ParseChoice(text + (" " + TagText("test", test)) + (" " + TagText("result", result))).Err?
  {
    ChoiceKeywords();
    var t2 := " " + TagText("result", result);
    var s := text + (" " + TagText("test", test)) + t2;
    assert s == (text + " ") + TagText("test", test) + t2;
    assert (text + " ") + t2 == (text + " ") + (" " + TagText("result", result));
    assert BracesNotBefore(s, 'c') by {
      TagBraces("test", test, 'c');
      TagBraces("result", result, 'c');
      BracesConcat(" ", TagText("test", test), 'c');
      BracesConcat(" ", TagText("result", result), 'c');
      BracesConcat(text, " " + TagText("test", test), 'c');
      BracesConcat(text + (" " + TagText("test", test)), t2, 'c');
    }
    NoTagForKeyword(s, "condition");
    NoTagKept(s, "condition");
    ExtractInserted(text + " ", "test", test, t2);
    TagTaken(text + " ", "result", result);
  }

  /** A text followed by two tags of one keyword has no tag of a keyword with another initial. */
  lemma TwoTagsBraces(text: string, keyword: string, first: string, second: string, c: char)
    requires NoneIn(text, {'{'}) && IsKeyword(keyword) && keyword[0] != c && IsName(first) && IsName(second)
    ensures BracesNotBefore(text + (" " + TagText(keyword, first)) + (" " + TagText(keyword, second)), c)
  {
    TagBraces(keyword, first, c);
    TagBraces(keyword, second, c);
    BracesConcat(" ", TagText(keyword, first), c);
    BracesConcat(" ", TagText(keyword, second), c);
    BracesConcat(text, " " + TagText(keyword, first), c);
    BracesConcat(text + (" " + TagText(keyword, first)), " " + TagText(keyword, second), c);
  }

  /** Of two tags of one keyword, the first is taken out and the second stays. */
  lemma FirstOfTwoTaken(text: string, keyword: string, first: string, second: string)
    requires NoneIn(text, {'{'}) && IsKeyword(keyword) && IsName(first) && IsName(second)
    ensures var t2 := " " + TagText(keyword, second);
      ExtractTag(text + (" " + TagText(keyword, first)) + t2, keyword) == (text + (" " + t2), first)
  {
    var t2 := " " + TagText(keyword, second);
    assert NoneIn(text + " ", {'{'});
    assert text + (" " + TagText(keyword, first)) + t2 == (text + " ") + TagText(keyword, first) + t2;
    assert (text + " ") + t2 == text + (" " + t2);
    ExtractInserted(text + " ", keyword, first, t2);
  }

  /** Reading a keyword whose initial differs from that of two written tags leaves the text as it is. */
  lemma OtherOfTwoKept(text: string, keyword: string, first: string, second: string, other: string)
    requires NoneIn(text, {'{'}) && IsKeyword(keyword) && IsName(first) && IsName(second)
    requires IsKeyword(other) && other[0] != keyword[0]
    ensures var s := text + (" " + TagText(keyword, first)) + (" " + TagText(keyword, second));
      ExtractTag(s, other) == (s, "")
  {
    var s := text + (" " + TagText(keyword, first)) + (" " + TagText(keyword, second));
    TwoTagsBraces(text, keyword, first, second, other[0]);
    NoTagForKeyword(s, other);
    NoTagKept(s, other);
  }

  /** A trimmed text followed by two spaces and a tag is trimmed. */
  lemma TaggedTextTrimmed(text: string, tag: string)
    requires text != [] && IsTrimmed(text) && tag != [] && tag[|tag| - 1] == '}'
    ensures Trim(text + (" " + (" " + tag))) == text + (" " + (" " + tag))
  {
    var r := text + (" " + (" " + tag));
    assert r[0] == text[0] && r[|r| - 1] == '}';
    TrimTrimmed(r);
  }

  /**
   * Only the first tag of a kind is taken out: a second result tag stays in
   * the display text.
   */
  lemma ChoiceSecondResultKept(text: string, first: string, second: string)
    requires text != [] && IsTrimmed(text) && NoneIn(text, {'{'}) && IsName(first) && IsName(second)
    ensures ParseChoice(text + (" " + TagText("result", first)) + (" " + TagText("result", second)))
         == Ok(Choice(text + (" " + (" " + TagText("result", second))), "", "", first))
  {
    var t2 := " " + TagText("result", second);
    var s := text + (" " + TagText("result", first)) + t2;
    var rest := text + (" " + t2);
    TaggedTextTrimmed(text, TagText("result", second));
    ChoiceKeywords();
    OtherOfTwoKept(text, "result", first, second, "condition");
    OtherOfTwoKept(text, "result", first, second, "test");
    FirstOfTwoTaken(text, "result", first, second);
    ParseChoiceSteps(s, s, s, rest, Choice(rest, "", "", first));
  }

  // ----- reading several lines -----

  /** Each value a reader produces, in order, or the failure of any one. */
  function ParseAll<T>(xs: seq<string>, parse: string -> Result<T, ()>): (r: Result<seq<T>, ()>)
    ensures r.Ok? ==> |r.value| == |xs|
  {
    if xs == [] then Ok([])
    else
      var init := xs[..|xs| - 1];
      match ParseAll(init, parse)
      case Err(_) => Err(())
      case Ok(vs) =>
        match parse(xs[|xs| - 1])
        case Err(_) => Err(())
        case Ok(v) => Ok(vs + [v])
  }

  /** Reading succeeds exactly when every line reads, and then each value comes from its own line. */
  lemma {:induction false} ParseAllOk<T>(xs: seq<string>, parse: string -> Result<T, ()>)
    ensures ParseAll(xs, parse).Ok? <==> forall k :: 0 <= k < |xs| ==> parse(xs[k]).Ok?
    ensures ParseAll(xs, parse).Ok? ==> forall k :: 0 <= k < |xs| ==> parse(xs[k]) == Ok(ParseAll(xs, parse).value[k])
  {
    if xs != [] {
      var init := xs[..|xs| - 1];
      ParseAllOk(init, parse);
      assert forall k :: 0 <= k < |init| ==> init[k] == xs[k];
    }
  }

  lemma ParseAllSingle<T>(x: string, parse: string -> Result<T, ()>)
    ensures ParseAll([x], parse) == match parse(x) case Ok(v) => Ok([v]) case Err(_) => Err(())
  {
    assert [x][..0] == [];
    assert ParseAll([], parse) == Ok([]);
    if parse(x).Ok? {
      assert [] + [parse(x).value] == [parse(x).value];
    }
  }

  /** Reading two runs of lines one after the other. */
  lemma {:induction false} ParseAllConcat<T>(xs: seq<string>, ys: seq<string>, parse: string -> Result<T, ()>)
    ensures ParseAll(xs + ys, parse).Ok? <==> ParseAll(xs, parse).Ok? && ParseAll(ys, parse).Ok?
    ensures ParseAll(xs + ys, parse).Ok? ==>
      ParseAll(xs + ys, parse).value == ParseAll(xs, parse).value + ParseAll(ys, parse).value
    decreases |ys|
  {
    if ys == [] {
      assert xs + ys == xs;
    } else {
      var init := ys[..|ys| - 1];
      assert (xs + ys)[..|xs + ys| - 1] == xs + init;
      assert (xs + ys)[|xs + ys| - 1] == ys[|ys| - 1];
      ParseAllConcat(xs, init, parse);
    }
  }

  /** Reading around one line that reads as `item`. */
  lemma ReadAround<T>(before: seq<string>, line: string, after: seq<string>, parse: string -> Result<T, ()>, item: T)
    requires parse(line) == Ok(item)
    ensures ParseAll(before + [line] + after, parse).Ok? <==> ParseAll(before + after, parse).Ok?
    ensures ParseAll(before + after, parse).Ok? <==> ParseAll(before, parse).Ok? && ParseAll(after, parse).Ok?
    ensures ParseAll(before + after, parse).Ok? ==>
      var xs := ParseAll(before, parse).value;
      var ys := ParseAll(after, parse).value;
      ParseAll(before + after, parse).value == xs + ys
      && ParseAll(before + [line] + after, parse).value == xs + [item] + ys
  {
    ParseAllSingle(line, parse);
    ParseAllConcat(before, [line], parse);
    ParseAllConcat(before + [line], after, parse);
    ParseAllConcat(before, after, parse);
  }

  /** One more line read. */
  lemma ParseAllStep<T>(xs: seq<string>, k: nat, vs: seq<T>, parse: string -> Result<T, ()>, v: T)
    requires k < |xs| && ParseAll(xs[..k], parse) == Ok(vs) && parse(xs[k]) == Ok(v)
    ensures ParseAll(xs[..k + 1], parse) == Ok(vs + [v])
  {
    assert xs[..k + 1][..k] == xs[..k];
  }

  /** A line that does not read fails the whole run. */
  lemma ParseAllFails<T>(xs: seq<string>, k: nat, parse: string -> Result<T, ()>)
    requires k < |xs| && parse(xs[k]).Err?
    ensures ParseAll(xs, parse).Err?
  {
    ParseAllOk(xs, parse);
  }

  // ----- pages -----

  /** The tag a page line starts with, tried in the source's order; `PageText` is no tag. */
  datatype PageTag = PageTitle | PageStory | PageChoice | PageCondition | PageTest | PageResult | PageText

  function PageTagOf(line: string): PageTag {
    if StartsWith(line, "title:") then PageTitle
    else if StartsWith(line, "story:") then PageStory
    else if StartsWith(line, "choice:") then PageChoice
    else if StartsWith(line, "condition:") then PageCondition
    else if StartsWith(line, "test:") then PageTest
    else if StartsWith(line, "result:") then PageResult
    else PageText
  }

  /** What one line of a page stands for, once read. */
  datatype PageItem =
    | TitleItem(title: string)
    | StoryItem(story: string)
    | ChoiceItem(choice: Choice)
    | ConditionItem(condition: Condition)
    | TestItem(test: Test)
    | ResultItem(result: StoryResult)
    | PageTextItem

  /**
   * The branch of the page loop that a line's tag selects: the tag is
   * removed once and the rest handed to the matching reader. Only choice,
   * condition, test and result lines can fail.
   */
  function ReadPageLine(line: string): (r: Result<PageItem, ()>)
    ensures PageTagOf(line) == PageTitle || PageTagOf(line) == PageStory || PageTagOf(line) == PageText ==> r.Ok?
    ensures PageTagOf(line) == PageText ==> r == Ok(PageTextItem)
  {
    match PageTagOf(line)
    case PageTitle => Ok(TitleItem(Trim(RemoveFirst(line, "title:"))))
    case PageStory => Ok(StoryItem(Trim(RemoveFirst(line, "story:"))))
    case PageChoice =>
      (match ParseChoice(RemoveFirst(line, "choice:"))
       case Ok(c) => Ok(ChoiceItem(c))
       case Err(_) => Err(()))
    case PageCondition =>
      (match ParseCondition(RemoveFirst(line, "condition:"))
       case Ok(c) => Ok(ConditionItem(c))
       case Err(_) => Err(()))
    case PageTest =>
      (match ParseTest(RemoveFirst(line, "test:"))
       case Ok(t) => Ok(TestItem(t))
       case Err(_) => Err(()))
    case PageResult =>
      (match ParseStoryResult(RemoveFirst(line, "result:"))
       case Ok(r) => Ok(ResultItem(r))
       case Err(_) => Err(()))
    case PageText => Ok(PageTextItem)
  }

  function NewPage(): Page {
    Page("", "", [], [], [], [])
  }

  /**
   * One pass of the page loop on a line that was read. An untagged line
   * leaves the page alone: the source tests a `flag` that is declared afresh
   * (as 0) at the top of every pass, so its story-continuation branch can
   * never run.
   */
  function AddPageItem(page: Page, item: PageItem): Page {
    match item
    case TitleItem(t) => page.(title := t)
    case StoryItem(t) => page.(story := t)
    case ChoiceItem(c) => page.(choices := page.choices + [c])
    case ConditionItem(c) => page.(conditions := page.conditions + [c])
    case TestItem(t) => page.(tests := page.tests + [t])
    case ResultItem(r) => page.(results := page.results + [r])
    case PageTextItem => page
  }

  function AddPageItems(page: Page, items: seq<PageItem>): Page {
    if items == [] then page
    else AddPageItem(AddPageItems(page, items[..|items| - 1]), items[|items| - 1])
  }

  lemma AddPageItemsStep(page: Page, items: seq<PageItem>, item: PageItem)
    ensures AddPageItems(page, items + [item]) == AddPageItem(AddPageItems(page, items), item)
  {
    assert (items + [item])[..|items|] == items;
  }

  /** The page loop over `lines`: it stops at the first line that fails. */
  function PageLines(lines: seq<string>): Result<Page, ()> {
    match ParseAll(lines, ReadPageLine)
    case Err(_) => Err(())
    case Ok(items) => Ok(AddPageItems(NewPage(), items))
  }

  /** `Page::is_valid` */
  predicate PageValid(p: Page) {
    p.story != [] && p.choices != [] && p.results != []
  }

  /** `Page::parse_from_string` as a function of the text. */
  function PageOf(text: string): Result<Page, ()> {
    match PageLines(Lines(text))
    case Err(_) => Err(())
    case Ok(p) => if PageValid(p) then Ok(p) else Err(())
  }

  /** What `ReadPageLine` gives for each tag whose reading can fail, one lemma per tag. */
  lemma ChoicePageLine(line: string)
    requires PageTagOf(line) == PageChoice
    ensures ReadPageLine(line)
         == if ParseChoice(RemoveFirst(line, "choice:")).Ok? then Ok(ChoiceItem(ParseChoice(RemoveFirst(line, "choice:")).value)) else Err(())
  {
    assert ReadPageLine(line)
        == match ParseChoice(RemoveFirst(line, "choice:")) case Ok(x) => Ok(ChoiceItem(x)) case Err(_) => Err(());
  }

  lemma ConditionPageLine(line: string)
    requires PageTagOf(line) == PageCondition
    ensures ReadPageLine(line)
         == if ParseCondition(RemoveFirst(line, "condition:")).Ok? then Ok(ConditionItem(ParseCondition(RemoveFirst(line, "condition:")).value)) else Err(())
  {
    assert ReadPageLine(line)
        == match ParseCondition(RemoveFirst(line, "condition:")) case Ok(x) => Ok(ConditionItem(x)) case Err(_) => Err(());
  }

  lemma TestPageLine(line: string)
    requires PageTagOf(line) == PageTest
    ensures ReadPageLine(line)
         == if ParseTest(RemoveFirst(line, "test:")).Ok? then Ok(TestItem(ParseTest(RemoveFirst(line, "test:")).value)) else Err(())
  {
    assert ReadPageLine(line)
        == match ParseTest(RemoveFirst(line, "test:")) case Ok(x) => Ok(TestItem(x)) case Err(_) => Err(());
  }

  lemma ResultPageLine(line: string)
    requires PageTagOf(line) == PageResult
    ensures ReadPageLine(line)
         == if ParseStoryResult(RemoveFirst(line, "result:")).Ok? then Ok(ResultItem(ParseStoryResult(RemoveFirst(line, "result:")).value)) else Err(())
  {
    assert ReadPageLine(line)
        == match ParseStoryResult(RemoveFirst(line, "result:")) case Ok(x) => Ok(ResultItem(x)) case Err(_) => Err(());
  }

  /** What each kind of item does to a page. */
  lemma PageItemAdded(page: Page, item: PageItem)
    ensures item.TitleItem? ==> AddPageItem(page, item) == page.(title := item.title)
    ensures item.StoryItem? ==> AddPageItem(page, item) == page.(story := item.story)
    ensures item.ChoiceItem? ==> AddPageItem(page, item) == page.(choices := page.choices + [item.choice])
    ensures item.ConditionItem? ==> AddPageItem(page, item) == page.(conditions := page.conditions + [item.condition])
    ensures item.TestItem? ==> AddPageItem(page, item) == page.(tests := page.tests + [item.test])
    ensures item.ResultItem? ==> AddPageItem(page, item) == page.(results := page.results + [item.result])
    ensures item.PageTextItem? ==> AddPageItem(page, item) == page
  {
  }

  /**
   * The body of the page loop on one line. Its `flag` is declared afresh in
   * every pass, so the branch that would continue the story never runs.
   */
  method PageLinePass(page: Page, line: string) returns (next: Result<Page, ()>)
    ensures next.Err? <==> ReadPageLine(line).Err?
    ensures next.Ok? ==> next.value == AddPageItem(page, ReadPageLine(line).value)
  {
    var flag := 0;
    if StartsWith(line, "title:") {
      flag := 0;
      PageItemAdded(page, TitleItem(Trim(RemoveFirst(line, "title:"))));
      return Ok(page.(title := Trim(RemoveFirst(line, "title:"))));
    } else if StartsWith(line, "story:") {
      flag := 1;
      PageItemAdded(page, StoryItem(Trim(RemoveFirst(line, "story:"))));
      return Ok(page.(story := Trim(RemoveFirst(line, "story:"))));
    } else if StartsWith(line, "choice:") {
      flag := 0;
      ChoicePageLine(line);
      var cho := ParseChoice(RemoveFirst(line, "choice:"));
      if cho.Err? {
        return Err(());
      }
      PageItemAdded(page, ChoiceItem(cho.value));
      return Ok(page.(choices := page.choices + [cho.value]));
    } else if StartsWith(line, "condition:") {
      flag := 0;
      ConditionPageLine(line);
      var con := ParseCondition(RemoveFirst(line, "condition:"));
      if con.Err? {
        return Err(());
      }
      PageItemAdded(page, ConditionItem(con.value));
      return Ok(page.(conditions := page.conditions + [con.value]));
    } else if StartsWith(line, "test:") {
      flag := 0;
      TestPageLine(line);
      var test := ParseTest(RemoveFirst(line, "test:"));
      if test.Err? {
        return Err(());
      }
      PageItemAdded(page, TestItem(test.value));
      return Ok(page.(tests := page.tests + [test.value]));
    } else if StartsWith(line, "result:") {
      flag := 0;
      ResultPageLine(line);
      var res := ParseStoryResult(RemoveFirst(line, "result:"));
      if res.Err? {
        return Err(());
      }
      PageItemAdded(page, ResultItem(res.value));
      return Ok(page.(results := page.results + [res.value]));
    } else {
      assert ReadPageLine(line) == Ok(PageTextItem);
      PageItemAdded(page, PageTextItem);
      if flag == 1 {
        return Ok(page.(story := page.story + line));
      }
      return Ok(page);
    }
  }

  /** One pass of the page loop extends both the read items and the page they build. */
  lemma PageStep(lines: seq<string>, k: nat, items: seq<PageItem>, item: PageItem, page: Page)
    requires k < |lines|
    requires ParseAll(lines[..k], ReadPageLine) == Ok(items)
    requires ReadPageLine(lines[k]) == Ok(item)
    requires AddPageItem(AddPageItems(NewPage(), items), item) == page
    ensures ParseAll(lines[..k + 1], ReadPageLine) == Ok(items + [item])
    ensures AddPageItems(NewPage(), items + [item]) == page
  {
    ParseAllStep(lines, k, items, ReadPageLine, item);
    AddPageItemsStep(NewPage(), items, item);
  }

  /** `Page::parse_from_string`, line by line as the source does it. */
  method ParsePage(text: string) returns (r: Result<Page, ()>)
    ensures r == PageOf(text)
  {
    var page := NewPage();
    var lines := Lines(text);
    ghost var items: seq<PageItem> := [];
    for k := 0 to |lines|
      invariant ParseAll(lines[..k], ReadPageLine) == Ok(items)
      invariant page == AddPageItems(NewPage(), items)
    {
      var next := PageLinePass(page, lines[k]);
      if next.Err? {
        ParseAllFails(lines, k, ReadPageLine);
        return Err(());
      }
      PageStep(lines, k, items, ReadPageLine(lines[k]).value, next.value);
      page := next.value;
      items := items + [ReadPageLine(lines[k]).value];
    }
    assert lines[..|lines|] == lines;
    if PageValid(page) {
      return Ok(page);
    } else {
      return Err(());
    }
  }

  /** The last title among `items`, or "" if there is none. */
  function LastTitle(items: seq<PageItem>): string {
    if items == [] then ""
    else if items[|items| - 1].TitleItem? then items[|items| - 1].title
    else LastTitle(items[..|items| - 1])
  }

  /** The last story among `items`, or "" if there is none. */
  function LastStory(items: seq<PageItem>): string {
    if items == [] then ""
    else if items[|items| - 1].StoryItem? then items[|items| - 1].story
    else LastStory(items[..|items| - 1])
  }

  function ChoicesIn(items: seq<PageItem>): seq<Choice> {
    if items == [] then []
    else
      var last := items[|items| - 1];
      ChoicesIn(items[..|items| - 1]) + (if last.ChoiceItem? then [last.choice] else [])
  }

  function ConditionsIn(items: seq<PageItem>): seq<Condition> {
    if items == [] then []
    else
      var last := items[|items| - 1];
      ConditionsIn(items[..|items| - 1]) + (if last.ConditionItem? then [last.condition] else [])
  }

  function TestsIn(items: seq<PageItem>): seq<Test> {
    if items == [] then []
    else
      var last := items[|items| - 1];
      TestsIn(items[..|items| - 1]) + (if last.TestItem? then [last.test] else [])
  }

  function ResultsIn(items: seq<PageItem>): seq<StoryResult> {
    if items == [] then []
    else
      var last := items[|items| - 1];
      ResultsIn(items[..|items| - 1]) + (if last.ResultItem? then [last.result] else [])
  }

  /**
   * The page a run of read lines builds, field by field: the last title and
   * story win, and every choice, condition, test and result is kept, in file order.
   */
  lemma {:induction false} PageItemsFields(items: seq<PageItem>)
    ensures AddPageItems(NewPage(), items)
      == Page(LastTitle(items), LastStory(items), ChoicesIn(items), ConditionsIn(items), TestsIn(items), ResultsIn(items))
  {
    if items != [] {
      PageItemsFields(items[..|items| - 1]);
    }
  }

  lemma {:induction false} AddPageItemsConcat(page: Page, xs: seq<PageItem>, ys: seq<PageItem>)
    ensures AddPageItems(page, xs + ys) == AddPageItems(AddPageItems(page, xs), ys)
    decreases |ys|
  {
    if ys == [] {
      assert xs + ys == xs;
    } else {
      var init := ys[..|ys| - 1];
      assert (xs + ys)[..|xs + ys| - 1] == xs + init;
      AddPageItemsConcat(page, xs, init);
    }
  }

  /** An untagged item leaves the page alone, wherever it stands. */
  lemma PageTextItemIgnored(xs: seq<PageItem>, ys: seq<PageItem>)
    ensures AddPageItems(NewPage(), xs + [PageTextItem] + ys) == AddPageItems(NewPage(), xs + ys)
  {
    AddPageItemsConcat(NewPage(), xs + [PageTextItem], ys);
    AddPageItemsConcat(NewPage(), xs, ys);
    assert (xs + [PageTextItem])[..|xs|] == xs;
  }

  /** Untagged lines never change the page, wherever they stand. */
  lemma UntaggedLineIgnored(before: seq<string>, line: string, after: seq<string>)
    requires PageTagOf(line) == PageText
    ensures PageLines(before + [line] + after) == PageLines(before + after)
  {
    ReadAround(before, line, after, ReadPageLine, PageTextItem);
    if ParseAll(before + after, ReadPageLine).Ok? {
      var xs := ParseAll(before, ReadPageLine).value;
      var ys := ParseAll(after, ReadPageLine).value;
      assert PageLines(before + [line] + after) == Ok(AddPageItems(NewPage(), xs + [PageTextItem] + ys));
      assert PageLines(before + after) == Ok(AddPageItems(NewPage(), xs + ys));
      PageTextItemIgnored(xs, ys);
    }
  }

  /** In particular, a line after `story:` that carries no tag is not added to the story. */
  lemma StoryNotContinued(before: seq<string>, story: string, line: string, after: seq<string>)
    requires PageTagOf(story) == PageStory && PageTagOf(line) == PageText
    ensures PageLines(before + [story, line] + after) == PageLines(before + [story] + after)
  {
    assert before + [story, line] + after == (before + [story]) + [line] + after;
    UntaggedLineIgnored(before + [story], line, after);
  }

  /**
   * A page text is accepted exactly when every line reads and the page has a
   * story, a choice and a result; its fields are then those the lines describe.
   */
  lemma PageOfAccepts(text: string)
    ensures ParseAll(Lines(text), ReadPageLine).Ok? <==> forall k :: 0 <= k < |Lines(text)| ==> ReadPageLine(Lines(text)[k]).Ok?
    ensures ParseAll(Lines(text), ReadPageLine).Err? ==> PageOf(text).Err?
    ensures ParseAll(Lines(text), ReadPageLine).Ok? ==>
      var items := ParseAll(Lines(text), ReadPageLine).value;
      && (PageOf(text).Ok? <==> LastStory(items) != [] && ChoicesIn(items) != [] && ResultsIn(items) != [])
      && (PageOf(text).Ok? ==>
            PageOf(text).value == Page(LastTitle(items), LastStory(items), ChoicesIn(items), ConditionsIn(items), TestsIn(items), ResultsIn(items)))
  {
    ParseAllOk(Lines(text), ReadPageLine);
    if ParseAll(Lines(text), ReadPageLine).Ok? {
      PageItemsFields(ParseAll(Lines(text), ReadPageLine).value);
    }
  }

  // ----- adventures -----

  /** The tag an adventure line starts with, tried in the source's order; `AdventureText` is no tag. */
  datatype AdventureTag = AdventureTitle | AdventureDescription | AdventureStart | AdventureRecord | AdventureName | AdventureText

  function AdventureTagOf(line: string): AdventureTag {
    if StartsWith(line, "title:") then AdventureTitle
    else if StartsWith(line, "description:") then AdventureDescription
    else if StartsWith(line, "start:") then AdventureStart
    else if StartsWith(line, "record:") then AdventureRecord
    else if StartsWith(line, "name:") then AdventureName
    else AdventureText
  }

  /** What one line of an adventure stands for, once read. */
  datatype AdventureItem =
    | HeadingItem(title: string)
    | DescriptionItem(description: string)
    | StartItem(start: string)
    | RecordItem(record: Record)
    | NameItem(name: Name)
    | TextItem(text: string)

  /**
   * The branch of the adventure loop that a line's tag selects. A `name:`
   * line has `record:` removed from it, not `name:`, so the `name:` tag
   * stays in the text `Name::parse_from_string` reads.
   */
  function ReadAdventureLine(line: string): (r: Result<AdventureItem, ()>)
    ensures AdventureTagOf(line) != AdventureRecord && AdventureTagOf(line) != AdventureName ==> r.Ok?
    ensures AdventureTagOf(line) == AdventureText ==> r == Ok(TextItem(line))
  {
    match AdventureTagOf(line)
    case AdventureTitle => Ok(HeadingItem(Trim(RemoveFirst(line, "title:"))))
    case AdventureDescription => Ok(DescriptionItem(Trim(RemoveFirst(line, "description:"))))
    case AdventureStart => Ok(StartItem(Trim(RemoveFirst(line, "start:"))))
    case AdventureRecord =>
      (match ParseRecord(RemoveFirst(line, "record:"))
       case Ok(r) => Ok(RecordItem(r))
       case Err(_) => Err(()))
    case AdventureName =>
      (match ParseName(RemoveFirst(line, "record:"))
       case Ok(n) => Ok(NameItem(n))
       case Err(_) => Err(()))
    case AdventureText => Ok(TextItem(line))
  }

  /** The adventure read so far and the `flag` of the source: whether untagged lines continue the description. */
  datatype Reading = Reading(adventure: Adventure, inDescription: bool)

  function NewAdventure(): Adventure {
    Adventure("", "", "", "", [], [])
  }

  /** One pass of the adventure loop on a line that was read. */
  function AddAdventureItem(s: Reading, item: AdventureItem): Reading {
    var adv := s.adventure;
    match item
    case HeadingItem(t) => Reading(adv.(title := t), false)
    case DescriptionItem(d) => Reading(adv.(description := d), true)
    case StartItem(t) => Reading(adv.(start := t), false)
    case RecordItem(r) => Reading(adv.(records := adv.records + [r]), false)
    case NameItem(n) => Reading(adv.(names := adv.names + [n]), false)
    case TextItem(line) =>
      if s.inDescription then Reading(adv.(description := adv.description + line), true) else s
  }

  function AddAdventureItems(s: Reading, items: seq<AdventureItem>): Reading {
    if items == [] then s
    else AddAdventureItem(AddAdventureItems(s, items[..|items| - 1]), items[|items| - 1])
  }

  function StartReading(): Reading {
    Reading(NewAdventure(), false)
  }

  lemma AddAdventureItemsStep(s: Reading, items: seq<AdventureItem>, item: AdventureItem)
    ensures AddAdventureItems(s, items + [item]) == AddAdventureItem(AddAdventureItems(s, items), item)
  {
    assert (items + [item])[..|items|] == items;
  }

  /** The adventure loop over `lines`: it stops at the first line that fails. */
  function AdventureLines(lines: seq<string>): Result<Reading, ()> {
    match ParseAll(lines, ReadAdventureLine)
    case Err(_) => Err(())
    case Ok(items) => Ok(AddAdventureItems(StartReading(), items))
  }

  /** `Adventure::is_valid` */
  predicate AdventureValid(a: Adventure) {
    a.title != [] && a.description != [] && a.path != [] && a.start != []
  }

  /** `Adventure::parse_from_string` as a function of the text and the path. */
  function AdventureOf(text: string, path: string): Result<Adventure, ()> {
    match AdventureLines(Lines(text))
    case Err(_) => Err(())
    case Ok(s) =>
      var adv := s.adventure.(path := path);
      if AdventureValid(adv) then Ok(adv) else Err(())
  }

  /** What one line does to the reading, one lemma per tag. */
  lemma TitleLinePass(s: Reading, line: string)
    requires AdventureTagOf(line) == AdventureTitle
    ensures ReadAdventureLine(line) == Ok(HeadingItem(Trim(RemoveFirst(line, "title:"))))
    ensures AddAdventureItem(s, ReadAdventureLine(line).value) == Reading(s.adventure.(title := Trim(RemoveFirst(line, "title:"))), false)
  {
  }

  lemma DescriptionLinePass(s: Reading, line: string)
    requires AdventureTagOf(line) == AdventureDescription
    ensures ReadAdventureLine(line) == Ok(DescriptionItem(Trim(RemoveFirst(line, "description:"))))
    ensures AddAdventureItem(s, ReadAdventureLine(line).value)
         == Reading(s.adventure.(description := Trim(RemoveFirst(line, "description:"))), true)
  {
  }

  lemma StartLinePass(s: Reading, line: string)
    requires AdventureTagOf(line) == AdventureStart
    ensures ReadAdventureLine(line) == Ok(StartItem(Trim(RemoveFirst(line, "start:"))))
    ensures AddAdventureItem(s, ReadAdventureLine(line).value) == Reading(s.adventure.(start := Trim(RemoveFirst(line, "start:"))), false)
  {
  }

  lemma RecordLinePass(s: Reading, line: string, r: Record)
    requires AdventureTagOf(line) == AdventureRecord && ParseRecord(RemoveFirst(line, "record:")) == Ok(r)
    ensures ReadAdventureLine(line) == Ok(RecordItem(r))
    ensures AddAdventureItem(s, ReadAdventureLine(line).value) == Reading(s.adventure.(records := s.adventure.records + [r]), false)
  {
    assert ReadAdventureLine(line) == Ok(RecordItem(r));
  }

  lemma NameLinePass(s: Reading, line: string, n: Name)
    requires AdventureTagOf(line) == AdventureName && ParseName(RemoveFirst(line, "record:")) == Ok(n)
    ensures ReadAdventureLine(line) == Ok(NameItem(n))
    ensures AddAdventureItem(s, ReadAdventureLine(line).value) == Reading(s.adventure.(names := s.adventure.names + [n]), false)
  {
    assert ReadAdventureLine(line) == Ok(NameItem(n));
  }

  lemma TextLinePass(s: Reading, line: string)
    requires AdventureTagOf(line) == AdventureText
    ensures ReadAdventureLine(line) == Ok(TextItem(line))
    ensures AddAdventureItem(s, ReadAdventureLine(line).value)
         == if s.inDescription then Reading(s.adventure.(description := s.adventure.description + line), true) else s
  {
  }

  /** One pass of the adventure loop extends both the read items and the reading they build. */
  lemma AdventureStep(lines: seq<string>, k: nat, items: seq<AdventureItem>, before: Reading, item: AdventureItem, after: Reading)
    requires k < |lines|
    requires ParseAll(lines[..k], ReadAdventureLine) == Ok(items)
    requires AddAdventureItems(StartReading(), items) == before
    requires ReadAdventureLine(lines[k]) == Ok(item)
    requires AddAdventureItem(before, item) == after
    ensures ParseAll(lines[..k + 1], ReadAdventureLine) == Ok(items + [item])
    ensures AddAdventureItems(StartReading(), items + [item]) == after
  {
    ParseAllStep(lines, k, items, ReadAdventureLine, item);
    AddAdventureItemsStep(StartReading(), items, item);
  }

  /**
   * The body of the adventure loop on one line: the tag selects a branch,
   * which updates the adventure and the `flag`; a `record:` or `name:` line
   * that does not parse ends the whole parse.
   */
  method AdventureLinePass(adv: Adventure, flag: int, line: string) returns (next: Result<(Adventure, int), ()>)
    requires flag == 0 || flag == 1
    ensures next.Err? <==> ReadAdventureLine(line).Err?
    ensures next.Ok? ==> next.value.1 == 0 || next.value.1 == 1
    ensures next.Ok? ==>
      Reading(next.value.0, next.value.1 == 1) == AddAdventureItem(Reading(adv, flag == 1), ReadAdventureLine(line).value)
  {
    if StartsWith(line, "title:") {
      TitleLinePass(Reading(adv, flag == 1), line);
      return Ok((adv.(title := Trim(RemoveFirst(line, "title:"))), 0));
    } else if StartsWith(line, "description:") {
      DescriptionLinePass(Reading(adv, flag == 1), line);
      return Ok((adv.(description := Trim(RemoveFirst(line, "description:"))), 1));
    } else if StartsWith(line, "start:") {
      StartLinePass(Reading(adv, flag == 1), line);
      return Ok((adv.(start := Trim(RemoveFirst(line, "start:"))), 0));
    } else if StartsWith(line, "record:") {
      var rec := ParseRecord(RemoveFirst(line, "record:"));
      if rec.Err? {
        return Err(());
      }
      RecordLinePass(Reading(adv, flag == 1), line, rec.value);
      return Ok((adv.(records := adv.records + [rec.value]), 0));
    } else if StartsWith(line, "name:") {
      var name := ParseName(RemoveFirst(line, "record:"));
      if name.Err? {
        return Err(());
      }
      NameLinePass(Reading(adv, flag == 1), line, name.value);
      return Ok((adv.(names := adv.names + [name.value]), 0));
    } else {
      TextLinePass(Reading(adv, flag == 1), line);
      if flag == 1 {
        return Ok((adv.(description := adv.description + line), flag));
      }
      return Ok((adv, flag));
    }
  }

  /** `Adventure::parse_from_string`, line by line as the source does it. */
  method ParseAdventure(text: string, path: string) returns (r: Result<Adventure, ()>)
    ensures r == AdventureOf(text, path)
  {
    var adv := NewAdventure();
    var lines := Lines(text);
    var flag := 0;
    ghost var items: seq<AdventureItem> := [];
    for k := 0 to |lines|
      invariant flag == 0 || flag == 1
      invariant ParseAll(lines[..k], ReadAdventureLine) == Ok(items)
      invariant AddAdventureItems(StartReading(), items) == Reading(adv, flag == 1)
    {
      ghost var before := Reading(adv, flag == 1);
      var next := AdventureLinePass(adv, flag, lines[k]);
      if next.Err? {
        ParseAllFails(lines, k, ReadAdventureLine);
        return Err(());
      }
      adv, flag := next.value.0, next.value.1;
      AdventureStep(lines, k, items, before, ReadAdventureLine(lines[k]).value, Reading(adv, flag == 1));
      items := items + [ReadAdventureLine(lines[k]).value];
    }
    assert lines[..|lines|] == lines;
    adv := adv.(path := path);
    if AdventureValid(adv) {
      return Ok(adv);
    } else {
      return Err(());
    }
  }

  function LastHeading(items: seq<AdventureItem>): string {
    if items == [] then ""
    else if items[|items| - 1].HeadingItem? then items[|items| - 1].title
    else LastHeading(items[..|items| - 1])
  }

  function LastStart(items: seq<AdventureItem>): string {
    if items == [] then ""
    else if items[|items| - 1].StartItem? then items[|items| - 1].start
    else LastStart(items[..|items| - 1])
  }

  function RecordsIn(items: seq<AdventureItem>): seq<Record> {
    if items == [] then []
    else
      var last := items[|items| - 1];
      RecordsIn(items[..|items| - 1]) + (if last.RecordItem? then [last.record] else [])
  }

  function NamesIn(items: seq<AdventureItem>): seq<Name> {
    if items == [] then []
    else
      var last := items[|items| - 1];
      NamesIn(items[..|items| - 1]) + (if last.NameItem? then [last.name] else [])
  }

  /**
   * The adventure a run of read lines builds, apart from its description:
   * the last title and start win, every record and name is kept in file
   * order, and the path is not set by the loop.
   */
  lemma {:induction false} AdventureItemsFields(items: seq<AdventureItem>)
    ensures var a := AddAdventureItems(StartReading(), items).adventure;
      a.title == LastHeading(items) && a.start == LastStart(items) && a.path == ""
      && a.records == RecordsIn(items) && a.names == NamesIn(items)
  {
    if items != [] {
      AdventureItemsFields(items[..|items| - 1]);
    }
  }

  lemma {:induction false} AddAdventureItemsConcat(s: Reading, xs: seq<AdventureItem>, ys: seq<AdventureItem>)
    ensures AddAdventureItems(s, xs + ys) == AddAdventureItems(AddAdventureItems(s, xs), ys)
    decreases |ys|
  {
    if ys == [] {
      assert xs + ys == xs;
    } else {
      var init := ys[..|ys| - 1];
      assert (xs + ys)[..|xs + ys| - 1] == xs + init;
      AddAdventureItemsConcat(s, xs, init);
    }
  }

  /** The text of the untagged lines among `items`, run together without separators. */
  function Texts(items: seq<AdventureItem>): string {
    if items == [] then ""
    else
      var last := items[|items| - 1];
      Texts(items[..|items| - 1]) + (if last.TextItem? then last.text else "")
  }

  /** After a `description:` line, the following untagged lines are appended to the description. */
  lemma {:induction false} DescriptionRun(s: Reading, description: string, texts: seq<AdventureItem>)
    requires forall k :: 0 <= k < |texts| ==> texts[k].TextItem?
    ensures AddAdventureItems(s, [DescriptionItem(description)] + texts).inDescription
    ensures AddAdventureItems(s, [DescriptionItem(description)] + texts).adventure.description
      == description + Texts(texts)
    decreases |texts|
  {
    var items := [DescriptionItem(description)] + texts;
    if texts == [] {
      assert items == [DescriptionItem(description)];
      assert items[..0] == [];
    } else {
      var init := texts[..|texts| - 1];
      var last := texts[|texts| - 1];
      assert items == [DescriptionItem(description)] + init + [last];
      AddAdventureItemsStep(s, [DescriptionItem(description)] + init, last);
      DescriptionRun(s, description, init);
      assert last.TextItem?;
      assert Texts(texts) == Texts(init) + last.text;
    }
  }

  /** Once untagged lines do not continue anything, items other than descriptions leave the description alone. */
  lemma {:induction false} DescriptionKept(s: Reading, items: seq<AdventureItem>)
    requires !s.inDescription
    requires forall k :: 0 <= k < |items| ==> !items[k].DescriptionItem?
    ensures !AddAdventureItems(s, items).inDescription
    ensures AddAdventureItems(s, items).adventure.description == s.adventure.description
    decreases |items|
  {
    if items != [] {
      DescriptionKept(s, items[..|items| - 1]);
    }
  }

  lemma AddAdventureItemsThree(s: Reading, xs: seq<AdventureItem>, ys: seq<AdventureItem>, zs: seq<AdventureItem>)
    ensures AddAdventureItems(s, xs + ys + zs) == AddAdventureItems(AddAdventureItems(AddAdventureItems(s, xs), ys), zs)
  {
    AddAdventureItemsConcat(s, xs + ys, zs);
    AddAdventureItemsConcat(s, xs, ys);
  }

  /** A tagged item other than a description ends the run of untagged lines: nothing after it reaches the description. */
  lemma DescriptionClosed(t: Reading, after: seq<AdventureItem>)
    requires after == [] || !after[0].TextItem?
    requires forall k :: 0 <= k < |after| ==> !after[k].DescriptionItem?
    ensures AddAdventureItems(t, after).adventure.description == t.adventure.description
  {
    if after != [] {
      var u := AddAdventureItem(t, after[0]);
      assert [after[0]][..0] == [];
      assert after == [after[0]] + after[1..];
      AddAdventureItemsConcat(t, [after[0]], after[1..]);
      DescriptionKept(u, after[1..]);
    }
  }

  /**
   * The description is the text of the last `description:` line followed by
   * the untagged lines directly after it; untagged lines after any other tag
   * are dropped.
   */
  lemma DescriptionBlock(before: seq<AdventureItem>, description: string, texts: seq<AdventureItem>, after: seq<AdventureItem>)
    requires forall k :: 0 <= k < |texts| ==> texts[k].TextItem?
    requires after == [] || !after[0].TextItem?
    requires forall k :: 0 <= k < |after| ==> !after[k].DescriptionItem?
    ensures AddAdventureItems(StartReading(), before + [DescriptionItem(description)] + texts + after).adventure.description
      == description + Texts(texts)
  {
    var block := [DescriptionItem(description)] + texts;
    assert before + [DescriptionItem(description)] + texts + after == before + block + after;
    AddAdventureItemsThree(StartReading(), before, block, after);
    var s := AddAdventureItems(StartReading(), before);
    DescriptionRun(s, description, texts);
    DescriptionClosed(AddAdventureItems(s, block), after);
  }

  /** Without a `description:` line the description stays empty. */
  lemma NoDescription(items: seq<AdventureItem>)
    requires forall k :: 0 <= k < |items| ==> !items[k].DescriptionItem?
    ensures AddAdventureItems(StartReading(), items).adventure.description == ""
  {
    DescriptionKept(StartReading(), items);
  }

  /**
   * An adventure text is accepted exactly when every line reads and the
   * title, description, path and start are all non-empty; the title, start,
   * records and names are then those the lines describe.
   */
  lemma AdventureOfAccepts(text: string, path: string)
    ensures ParseAll(Lines(text), ReadAdventureLine).Ok? <==>
      forall k :: 0 <= k < |Lines(text)| ==> ReadAdventureLine(Lines(text)[k]).Ok?
    ensures ParseAll(Lines(text), ReadAdventureLine).Err? ==> AdventureOf(text, path).Err?
    ensures ParseAll(Lines(text), ReadAdventureLine).Ok? ==>
      var items := ParseAll(Lines(text), ReadAdventureLine).value;
      var description := AddAdventureItems(StartReading(), items).adventure.description;
      && (AdventureOf(text, path).Ok? <==>
            LastHeading(items) != [] && description != [] && path != [] && LastStart(items) != [])
      && (AdventureOf(text, path).Ok? ==>
            AdventureOf(text, path).value == Adventure(LastHeading(items), description, path, LastStart(items), RecordsIn(items), NamesIn(items)))
  {
    ParseAllOk(Lines(text), ReadAdventureLine);
    if ParseAll(Lines(text), ReadAdventureLine).Ok? {
      AdventureItemsFields(ParseAll(Lines(text), ReadAdventureLine).value);
    }
  }

  /**
   * A `name:` line without another `:` keeps its tag: nothing is removed
   * from it, so a parsed name's keyword starts with `name:`.
   */
  lemma NameLineKeepsTag(line: string)
    requires StartsWith(line, "name:") && NoneIn(line[5..], {':'})
    ensures RemoveFirst(line, "record:") == line
    ensures ParseName(RemoveFirst(line, "record:")).Ok? ==>
      StartsWith(ParseName(RemoveFirst(line, "record:")).value.keyword, "name:")
  {
    forall j | 0 <= j <= |line|
      ensures !StartsWith(line[j..], "record:")
    {
      if j + 7 <= |line| {
        assert line[j..][6] == line[5..][j + 1];
      }
    }
    RemoveFirstAbsent(line, "record:");
    var parts := Split(line, {';'});
    assert forall i :: 0 <= i < 5 ==> line[i] == "name:"[i];
    var i := FirstIn(line, {';'});
    if i.Some? {
      assert i.value >= 5;
      assert parts[0] == line[..i.value];
    } else {
      assert parts[0] == line;
    }
    assert StartsWith(parts[0], "name:");
    TrimStartsWith(parts[0], "name:");
    assert TrimmedNonEmpty(parts)[0] == Trim(parts[0]);
  }
}
