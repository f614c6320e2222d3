/** The data-layer checker service: it projects the records of a table view,
    decides one "Checking result" per record, and, for a record whose code
    spec is a `window...push(...)` text, compares the top-level keys of the
    pushed literal with the keys of the data layer observed on the record's
    page. */
module DataLayerChecker {
  import opened Outcomes
  import opened Text

  /** A record as the table store returns it. */
  datatype StoreRecord = StoreRecord(id: string, createdTime: string, fields: map<string, string>)

  /** A record after the projection of `constructSpecsPipe`. */
  datatype SpecRow = SpecRow(id: string, fields: map<string, string>)

  /** A record as the examination loop sees it; `codeSpecs` is `None` when the
      record has no "Code Specs" field. */
  datatype TestCase = TestCase(id: string, url: string, codeSpecs: Option<string>)

  /** One update for the table store. */
  datatype CheckResult = CheckResult(id: string, field: string, value: bool)

  /** Why an examination pass throws: the spec has no `(` (so `split('(')[1]`
      is undefined), the extracted literal is not accepted by `JSON.parse`,
      or the page collaborator did not deliver a data layer. */
  datatype Failure = NoOpenParen | SpecNotParsable | CollectorFailed

  const ResultField: string := "Checking result"
  const UrlField: string := "URL"
  const CodeSpecsField: string := "Code Specs"
  const DataLayerMarker: string := "window"

  /** `JSON.parse` followed by `Object.keys`: the top-level keys of the value
      a literal denotes, or `None` when parsing throws. */
  type KeyParser = string -> Option<seq<string>>

  /** The page collaborator: the keys of the data layer observed at a URL, or
      `None` when the collaborator fails. */
  type Observer = string -> Option<seq<string>>

  // ---------------------------------------------------------------------
  // Record projections

  function ProjectRecord(r: StoreRecord): SpecRow {
    SpecRow(r.id, r.fields)
  }

  /** The inner `map` of `constructSpecsPipe`: every record keeps its `id`
      and `fields`, in the same order. */
  function ConstructSpecs(records: seq<StoreRecord>): (rows: seq<SpecRow>)
    ensures |rows| == |records|
    ensures forall i :: 0 <= i < |records| ==>
      rows[i].id == records[i].id && rows[i].fields == records[i].fields
  {
    if |records| == 0 then []
    else [ProjectRecord(records[0])] + ConstructSpecs(records[1..])
  }

  /** The test case of one row: a missing or empty "URL" reads as `""`. */
  function ToTestCase(row: SpecRow): (tc: TestCase)
    ensures tc.id == row.id
    ensures tc.url == "" <==> UrlField !in row.fields || row.fields[UrlField] == ""
    ensures tc.url != "" ==> tc.url == row.fields[UrlField]
    ensures tc.codeSpecs.Some? <==> CodeSpecsField in row.fields
    ensures tc.codeSpecs.Some? ==> tc.codeSpecs.value == row.fields[CodeSpecsField]
  {
    TestCase(
      row.id,
      if UrlField in row.fields && row.fields[UrlField] != "" then row.fields[UrlField] else "",
      if CodeSpecsField in row.fields then Some(row.fields[CodeSpecsField]) else None)
  }

  /** The `records.map` that builds the test cases, in record order. */
  function ToTestCases(rows: seq<SpecRow>): (cases: seq<TestCase>)
    ensures |cases| == |rows|
    ensures forall i :: 0 <= i < |rows| ==> cases[i] == ToTestCase(rows[i])
  {
    if |rows| == 0 then []
    else [ToTestCase(rows[0])] + ToTestCases(rows[1..])
  }

  // ---------------------------------------------------------------------
  // examineDataLayer

  /** `replace(/\$/g, '')`: every `$` is removed and every other character
      is kept, in order. */
  function StripDollars(s: string): (r: string)
    ensures '$' !in r
    ensures |r| <= |s|
  {
    if |s| == 0 then ""
    else
      assert s == [s[0]] + s[1..];
      (if s[0] == '$' then "" else [s[0]]) + StripDollars(s[1..])
  }

  /** `.split('(')[1].split(';')[0]`: the text after the first `(`, up to
      the next `(` or `;`. */
  function ParenLiteral(text: string): (r: Result<string, Failure>)
    ensures r.Err? <==> '(' !in text
    ensures r.Err? ==> r.error == NoOpenParen
    ensures r.Ok? ==> '(' !in r.value && ';' !in r.value
    ensures r.Ok? && '$' !in text ==> '$' !in r.value
  {
    var parts := Split(text, '(');
    if |parts| < 2 then Err(NoOpenParen)
    else
      SplitKeepsAbsent(parts[1], ';', '(');
      if '$' !in text then
        SplitKeepsAbsent(text, '(', '$');
        SplitKeepsAbsent(parts[1], ';', '$');
        Ok(Split(parts[1], ';')[0])
      else Ok(Split(parts[1], ';')[0])
  }

  /** The literal of a spec: its `$` are removed first. */
  function ExtractLiteral(spec: string): (r: Result<string, Failure>)
    ensures r.Err? <==> '(' !in spec
    ensures r.Err? ==> r.error == NoOpenParen
    ensures r.Ok? ==> '$' !in r.value && '(' !in r.value && ';' !in r.value
  {
    StripDollarsKeeps(spec, '(');
    ParenLiteral(StripDollars(spec))
  }

  /** `specsKeys.every(key => actualDataKeys.includes(key))`. */
  function AllKeysPresent(specKeys: seq<string>, actualKeys: seq<string>): (r: bool)
    ensures r <==> forall k :: k in specKeys ==> k in actualKeys
  {
    |specKeys| == 0 || (specKeys[0] in actualKeys && AllKeysPresent(specKeys[1..], actualKeys))
  }

  /** `examineDataLayer`: extract the pushed literal, parse it, and pass if
      every top-level key of the spec is a key of the actual value. */
  function ExamineDataLayer(dataLayerSpec: string, actualKeys: seq<string>, parseKeys: KeyParser)
    : (r: Result<bool, Failure>)
    ensures r == Err(NoOpenParen) <==> '(' !in dataLayerSpec
    ensures r == Err(SpecNotParsable) <==>
      '(' in dataLayerSpec && parseKeys(ExtractLiteral(dataLayerSpec).value).None?
    ensures r.Ok? <==>
      '(' in dataLayerSpec && parseKeys(ExtractLiteral(dataLayerSpec).value).Some?
    ensures r.Ok? ==>
      var specKeys := parseKeys(ExtractLiteral(dataLayerSpec).value);
      specKeys.Some? && (r.value <==> forall k :: k in specKeys.value ==> k in actualKeys)
  {
    var literal :- ExtractLiteral(dataLayerSpec);
    match parseKeys(literal)
    case None => Err(SpecNotParsable)
    case Some(specKeys) => Ok(AllKeysPresent(specKeys, actualKeys))
  }

  /** `examineDataAttributes`: a stub that never passes. */
  function ExamineDataAttributes(testCase: TestCase): (r: bool)
    ensures !r
  {
    false
  }

  // ---------------------------------------------------------------------
  // updateExaminationResults

  /** The value of one record's "Checking result", or the failure that makes
      the pass throw. */
  function CheckTestCase(tc: TestCase, observe: Observer, parseKeys: KeyParser): (r: Result<bool, Failure>)
    ensures r.Err? ==>
      tc.url != "" && tc.codeSpecs.Some? && StartsWith(tc.codeSpecs.value, DataLayerMarker)
    ensures r == Ok(true) ==>
      && tc.url != "" && tc.codeSpecs.Some? && StartsWith(tc.codeSpecs.value, DataLayerMarker)
      && observe(tc.url).Some?
      && ExamineDataLayer(tc.codeSpecs.value, observe(tc.url).value, parseKeys) == Ok(true)
  {
    if tc.url == "" || tc.codeSpecs.None? || tc.codeSpecs.value == "" then Ok(false)
    else if StartsWith(tc.codeSpecs.value, DataLayerMarker) then
      match observe(tc.url)
      case None => Err(CollectorFailed)
      case Some(actualKeys) => ExamineDataLayer(tc.codeSpecs.value, actualKeys, parseKeys)
    else Ok(ExamineDataAttributes(tc))
  }

  /** What one pass of the loop pushes, and the failure that stopped it. */
  datatype Examination = Examination(results: seq<CheckResult>, failure: Option<Failure>)

  /** The loop over `testCases`, stated on the cases seen so far: a result per
      case until the first case whose check throws. */
  function ExamineAll(cases: seq<TestCase>, observe: Observer, parseKeys: KeyParser): (e: Examination)
    ensures |e.results| <= |cases|
    ensures e.failure.None? ==> |e.results| == |cases|
  {
    if |cases| == 0 then Examination([], None)
    else
      var before := ExamineAll(cases[..|cases| - 1], observe, parseKeys);
      var last := cases[|cases| - 1];
      if before.failure.Some? then before
      else
        match CheckTestCase(last, observe, parseKeys)
        case Err(e) => Examination(before.results, Some(e))
        case Ok(v) => Examination(before.results + [CheckResult(last.id, ResultField, v)], None)
  }

  /** The body of the loop over `testCases`: the value pushed for one test
      case, or the failure it throws. It follows the branches of
      `CheckTestCase`, about which the properties are stated, and exists so
      that the proof of the loop in `OnRecords` stays small. */
  method ExamineTestCase(testCase: TestCase, observe: Observer, parseKeys: KeyParser)
    returns (value: Result<bool, Failure>)
    ensures value == CheckTestCase(testCase, observe, parseKeys)
  {
    if testCase.url == "" || testCase.codeSpecs.None? || testCase.codeSpecs.value == "" {
      value := Ok(false);
    } else if StartsWith(testCase.codeSpecs.value, DataLayerMarker) {
      var actualDataLayer := observe(testCase.url);
      if actualDataLayer.None? {
        return Err(CollectorFailed);
      }
      value := ExamineDataLayer(testCase.codeSpecs.value, actualDataLayer.value, parseKeys);
    } else {
      value := Ok(ExamineDataAttributes(testCase));
    }
  }

  /** What a run of `updateExaminationResults` keeps across emissions of its
      record stream: the `promises` array, declared outside the subscription
      callback and only ever pushed to. */
  class ExaminationRun {
    var promises: seq<CheckResult>

    constructor ()
      ensures promises == []
    {
      promises := [];
    }

    /** The subscription callback for one emission of records: push one
        result per test case and hand everything pushed so far to the table
        store. A throwing check ends the callback: the results pushed before
        it stay in `promises`, and nothing is handed over (`None`). */
    method OnRecords(records: seq<SpecRow>, observe: Observer, parseKeys: KeyParser)
      returns (patched: Option<seq<CheckResult>>)
      modifies this
      ensures var e := ExamineAll(ToTestCases(records), observe, parseKeys);
        && promises == old(promises) + e.results
        && patched == (if e.failure.None? then Some(promises) else None)
    {
      var testCases := ToTestCases(records);
      var i := 0;
      while i < |testCases|
        invariant 0 <= i <= |testCases|
        invariant ExamineAll(testCases[..i], observe, parseKeys).failure.None?
        invariant promises == old(promises) + ExamineAll(testCases[..i], observe, parseKeys).results
      {
        var testCase := testCases[i];
        ExamineStep(testCases, i, observe, parseKeys);
        var value := ExamineTestCase(testCase, observe, parseKeys);
        if value.Err? {
          FailureSticks(testCases, i + 1, observe, parseKeys);
          return None;
        }
        promises := promises + [CheckResult(testCase.id, ResultField, value.value)];
        i := i + 1;
      }
      assert testCases[..i] == testCases;
      patched := Some(promises);
    }
  }

  /** `updateExaminationResults` for a record stream that emits once: the
      payload handed to the table store, or `None` when the pass throws. */
  method UpdateExaminationResults(records: seq<SpecRow>, observe: Observer, parseKeys: KeyParser)
    returns (patched: Option<seq<CheckResult>>)
    ensures var e := ExamineAll(ToTestCases(records), observe, parseKeys);
      patched == (if e.failure.None? then Some(e.results) else None)
  {
    var run := new ExaminationRun();
    assert run.promises == [];
    patched := run.OnRecords(records, observe, parseKeys);
    ghost var e := ExamineAll(ToTestCases(records), observe, parseKeys);
    assert run.promises == [] + e.results;
    assert [] + e.results == e.results;
  }

  // ---------------------------------------------------------------------
  // Properties

  /** Removing `$` from a text without `$` changes nothing. */
  lemma {:induction false} StripDollarsFixes(s: string)
    requires '$' !in s
    ensures StripDollars(s) == s
  {
    if |s| > 0 {
      assert s == [s[0]] + s[1..];
      StripDollarsFixes(s[1..]);
    }
  }

  /** Removing `$` keeps every other character. */
  lemma {:induction false} StripDollarsKeeps(s: string, c: char)
    requires c != '$'
    ensures c in StripDollars(s) <==> c in s
  {
    if |s| > 0 {
      assert s == [s[0]] + s[1..];
      StripDollarsKeeps(s[1..], c);
    }
  }

  /** Removing `$` a second time changes nothing. */
  lemma StripDollarsIdempotent(s: string)
    ensures StripDollars(StripDollars(s)) == StripDollars(s)
  {
    StripDollarsFixes(StripDollars(s));
  }

  /** Removing `$` works piece by piece, so the order of the other characters
      is kept. */
  lemma {:induction false} StripDollarsConcat(a: string, b: string)
    ensures StripDollars(a + b) == StripDollars(a) + StripDollars(b)
  {
    if |a| == 0 {
      assert a + b == b;
    } else {
      assert (a + b)[0] == a[0] && (a + b)[1..] == a[1..] + b;
      StripDollarsConcat(a[1..], b);
    }
  }

  /** The first piece of a split on `(` of a text whose first `(` or `;`
      comes right after `literal`, split again on `;`, is `literal`. */
  lemma LiteralPiece(literal: string, rest: string)
    requires '(' !in literal && ';' !in literal
    requires rest == "" || rest[0] == '(' || rest[0] == ';'
    ensures Split(Split(literal + rest, '(')[0], ';')[0] == literal
  {
    if rest == "" {
      assert literal + rest == literal;
    } else if rest[0] == '(' {
      assert literal + rest == literal + ['('] + rest[1..];
      SplitConcat(literal, rest[1..], '(');
    } else {
      assert literal + rest == (literal + ";") + rest[1..];
      SplitHeadPrefix(literal + ";", rest[1..], '(');
      assert (literal + ";") + Split(rest[1..], '(')[0] == literal + [';'] + Split(rest[1..], '(')[0];
      SplitConcat(literal, Split(rest[1..], '(')[0], ';');
    }
  }

  /** The literal is determined by the text around it: after the first `(`,
      ended by a `(`, a `;` or the end of the text. */
  lemma ParenLiteralOf(pre: string, literal: string, rest: string)
    requires '(' !in pre && '(' !in literal && ';' !in literal
    requires rest == "" || rest[0] == '(' || rest[0] == ';'
    ensures ParenLiteral(pre + "(" + literal + rest) == Ok(literal)
  {
    assert pre + "(" + literal + rest == pre + ['('] + (literal + rest);
    SplitConcat(pre, literal + rest, '(');
    LiteralPiece(literal, rest);
  }

  /** Conversely, the literal sits between a `(`-free prefix with a `(` after
      it and a rest that is empty or starts with `(` or `;`. */
  lemma ParenLiteralSplits(text: string) returns (pre: string, rest: string)
    requires '(' in text
    ensures text == pre + "(" + ParenLiteral(text).value + rest
    ensures '(' !in pre
    ensures rest == "" || rest[0] == '(' || rest[0] == ';'
  {
    var parts := Split(text, '(');
    pre := parts[0];
    var tail := FirstPieceRest(text, '(');
    assert tail != "";
    var after := tail[1..];
    var r1 := FirstPieceRest(after, '(');
    var second := Split(after, '(')[0];
    assert parts[1] == second;
    var r2 := FirstPieceRest(second, ';');
    var literal := Split(second, ';')[0];
    assert ParenLiteral(text).value == literal;
    rest := r2 + r1;
    Reassemble(text, pre, tail, second, r1, literal, r2);
    if r2 != "" {
      assert rest[0] == r2[0];
    }
  }

  /** Sequence bookkeeping for ParenLiteralSplits. */
  lemma Reassemble(text: string, pre: string, tail: string, second: string, r1: string,
                   literal: string, r2: string)
    requires text == pre + tail && tail != "" && tail[0] == '('
    requires tail[1..] == second + r1 && second == literal + r2
    ensures text == pre + "(" + literal + (r2 + r1)
  {
    assert tail == "(" + tail[1..];
  }

  /** The literal of a spec, by its text with the `$` removed. */
  lemma ExtractLiteralOf(spec: string, pre: string, literal: string, rest: string)
    requires StripDollars(spec) == pre + "(" + literal + rest
    requires '(' !in pre && '(' !in literal && ';' !in literal
    requires rest == "" || rest[0] == '(' || rest[0] == ';'
    ensures ExtractLiteral(spec) == Ok(literal)
  {
    ParenLiteralOf(pre, literal, rest);
  }

  /** Conversely, on the text with the `$` removed, the literal of a spec
      sits right after the first `(` and before a `(`, a `;` or the end. */
  lemma ExtractLiteralSplits(spec: string) returns (pre: string, rest: string)
    requires '(' in spec
    ensures StripDollars(spec) == pre + "(" + ExtractLiteral(spec).value + rest
    ensures '(' !in pre
    ensures rest == "" || rest[0] == '(' || rest[0] == ';'
  {
    StripDollarsKeeps(spec, '(');
    pre, rest := ParenLiteralSplits(StripDollars(spec));
  }

  /** The shape of a spec as the service's comments show it, with a
      `${...}` placeholder: the literal is the pushed object, without `$`. */
  lemma ExtractPushExample(spec: string)
    requires spec == "window.dataLayer.push({\"id\": \"${id}\"};)"
    ensures ExtractLiteral(spec) == Ok("{\"id\": \"{id}\"}")
  {
    var head, tail := "window.dataLayer.push({\"id\": \"", "{id}\"};)";
    var call, literal := "window.dataLayer.push", "{\"id\": \"{id}\"}";
    PushExampleText(spec, head, tail, call, literal);
    StripOnePlaceholder(head, tail);
    ExtractLiteralOf(spec, call, literal, ";)");
  }

  /** Removing the `$` of one placeholder joins the text around it. */
  lemma StripOnePlaceholder(head: string, tail: string)
    requires '$' !in head && '$' !in tail
    ensures StripDollars(head + "$" + tail) == head + tail
  {
    var rest := "$" + tail;
    assert head + "$" + tail == head + rest;
    StripDollarsConcat(head, rest);
    assert rest[0] == '$' && rest[1..] == tail;
    assert StripDollars(rest) == "" + StripDollars(tail) == StripDollars(tail);
    StripDollarsFixes(head);
    StripDollarsFixes(tail);
  }

  /** Sequence bookkeeping for ExtractPushExample. */
  lemma PushExampleText(spec: string, head: string, tail: string, call: string, literal: string)
    requires spec == "window.dataLayer.push({\"id\": \"${id}\"};)"
    requires head == "window.dataLayer.push({\"id\": \"" && tail == "{id}\"};)"
    requires call == "window.dataLayer.push" && literal == "{\"id\": \"{id}\"}"
    ensures spec == head + "$" + tail && head + tail == call + "(" + literal + ";)"
    ensures '$' !in head && '$' !in tail && '(' !in call && '(' !in literal && ';' !in literal
  {
    var opening := "{\"id\": \"";
    assert head == call + "(" + opening;
    assert literal == opening + "{id}\"}";
    assert tail == "{id}\"}" + ";)";
  }

  /** Extra keys in the actual value never turn a pass into a fail. */
  lemma MoreActualKeysStillPass(spec: string, actualKeys: seq<string>, moreKeys: seq<string>, parseKeys: KeyParser)
    requires ExamineDataLayer(spec, actualKeys, parseKeys) == Ok(true)
    requires forall k :: k in actualKeys ==> k in moreKeys
    ensures ExamineDataLayer(spec, moreKeys, parseKeys) == Ok(true)
  {
  }

  /** A spec asking for fewer keys never turns a pass into a fail. */
  lemma FewerSpecKeysStillPass(spec: string, fewer: string, actualKeys: seq<string>, parseKeys: KeyParser)
    requires ExamineDataLayer(spec, actualKeys, parseKeys) == Ok(true)
    requires '(' in fewer && parseKeys(ExtractLiteral(fewer).value).Some?
    requires forall k :: k in parseKeys(ExtractLiteral(fewer).value).value ==>
      k in parseKeys(ExtractLiteral(spec).value).value
    ensures ExamineDataLayer(fewer, actualKeys, parseKeys) == Ok(true)
  {
  }

  /** A spec without keys (`{}`) passes against any actual value. */
  lemma EmptySpecPasses(spec: string, actualKeys: seq<string>, parseKeys: KeyParser)
    requires '(' in spec && parseKeys(ExtractLiteral(spec).value) == Some([])
    ensures ExamineDataLayer(spec, actualKeys, parseKeys) == Ok(true)
  {
  }

  /** One more case: its result is pushed, or its failure ends the pass. */
  lemma ExamineStep(cases: seq<TestCase>, i: nat, observe: Observer, parseKeys: KeyParser)
    requires i < |cases|
    requires ExamineAll(cases[..i], observe, parseKeys).failure.None?
    ensures var before := ExamineAll(cases[..i], observe, parseKeys).results;
      ExamineAll(cases[..i + 1], observe, parseKeys) ==
        match CheckTestCase(cases[i], observe, parseKeys)
        case Err(e) => Examination(before, Some(e))
        case Ok(v) => Examination(before + [CheckResult(cases[i].id, ResultField, v)], None)
  {
    assert cases[..i + 1][..i] == cases[..i];
  }

  /** Once a case has thrown, later cases change nothing. */
  lemma {:induction false} FailureSticks(cases: seq<TestCase>, i: nat, observe: Observer, parseKeys: KeyParser)
    requires i <= |cases|
    requires ExamineAll(cases[..i], observe, parseKeys).failure.Some?
    ensures ExamineAll(cases, observe, parseKeys) == ExamineAll(cases[..i], observe, parseKeys)
    decreases |cases| - i
  {
    if i == |cases| {
      assert cases[..i] == cases;
    } else {
      var init := cases[..|cases| - 1];
      assert init[..i] == cases[..i];
      FailureSticks(init, i, observe, parseKeys);
    }
  }

  /** One result per case in the order of the cases, each with the case's
      `id`, the field "Checking result" and the value of its check, up to
      the first case whose check throws; without such a case every case has
      its result. */
  lemma {:induction false} ExamineAllShape(cases: seq<TestCase>, observe: Observer, parseKeys: KeyParser)
    ensures var e := ExamineAll(cases, observe, parseKeys);
      && |e.results| <= |cases|
      && (forall i :: 0 <= i < |e.results| ==>
            && e.results[i].id == cases[i].id
            && e.results[i].field == ResultField
            && CheckTestCase(cases[i], observe, parseKeys) == Ok(e.results[i].value))
      && (e.failure.None? ==> |e.results| == |cases|)
      && (e.failure.Some? ==>
            && |e.results| < |cases|
            && CheckTestCase(cases[|e.results|], observe, parseKeys) == Err(e.failure.value))
  {
    if |cases| > 0 {
      var init := cases[..|cases| - 1];
      ExamineAllShape(init, observe, parseKeys);
      assert forall i :: 0 <= i < |init| ==> init[i] == cases[i];
    }
  }

  /** The pass completes exactly when no case's check throws. */
  lemma ExamineAllCompletes(cases: seq<TestCase>, observe: Observer, parseKeys: KeyParser)
    ensures ExamineAll(cases, observe, parseKeys).failure.None? <==>
      forall i :: 0 <= i < |cases| ==> CheckTestCase(cases[i], observe, parseKeys).Ok?
  {
    ExamineAllShape(cases, observe, parseKeys);
  }

  /** The value rules for one record, stated on its fields: no URL or no code
      spec gives `false`; a spec starting with "window" gives the data-layer
      check against what the collaborator observed at the URL; any other spec
      gives the attribute stub's `false`. */
  lemma CheckRowRules(row: SpecRow, observe: Observer, parseKeys: KeyParser)
    ensures UrlField !in row.fields || row.fields[UrlField] == "" ==>
      CheckTestCase(ToTestCase(row), observe, parseKeys) == Ok(false)
    ensures CodeSpecsField !in row.fields || row.fields[CodeSpecsField] == "" ==>
      CheckTestCase(ToTestCase(row), observe, parseKeys) == Ok(false)
    ensures (UrlField in row.fields && row.fields[UrlField] != "" &&
      CodeSpecsField in row.fields && StartsWith(row.fields[CodeSpecsField], DataLayerMarker)) ==>
      CheckTestCase(ToTestCase(row), observe, parseKeys) ==
        match observe(row.fields[UrlField])
        case None => Err(CollectorFailed)
        case Some(actualKeys) => ExamineDataLayer(row.fields[CodeSpecsField], actualKeys, parseKeys)
    ensures (UrlField in row.fields && row.fields[UrlField] != "" &&
      CodeSpecsField in row.fields && !StartsWith(row.fields[CodeSpecsField], DataLayerMarker)) ==>
      CheckTestCase(ToTestCase(row), observe, parseKeys) == Ok(false)
  {
  }

  /** A record can only be marked as passing through the data-layer check:
      it has a URL, its spec starts with "window", and every key of its
      spec is a key of the data layer observed at that URL. */
  lemma PassMeansDataLayerMatched(rows: seq<SpecRow>, i: nat, observe: Observer, parseKeys: KeyParser)
    requires i < |rows|
    requires var e := ExamineAll(ToTestCases(rows), observe, parseKeys);
      i < |e.results| && e.results[i].value
    ensures UrlField in rows[i].fields && rows[i].fields[UrlField] != ""
    ensures CodeSpecsField in rows[i].fields && StartsWith(rows[i].fields[CodeSpecsField], DataLayerMarker)
    ensures observe(rows[i].fields[UrlField]).Some?
    ensures ExamineDataLayer(rows[i].fields[CodeSpecsField], observe(rows[i].fields[UrlField]).value, parseKeys) == Ok(true)
  {
    ExamineAllShape(ToTestCases(rows), observe, parseKeys);
  }

  /** The two projections keep the records' order: projecting a
      concatenation is the concatenation of the projections. */
  lemma {:induction false} ConstructSpecsConcat(a: seq<StoreRecord>, b: seq<StoreRecord>)
    ensures ConstructSpecs(a + b) == ConstructSpecs(a) + ConstructSpecs(b)
  {
    if |a| == 0 {
      assert a + b == b;
    } else {
      assert (a + b)[1..] == a[1..] + b;
      ConstructSpecsConcat(a[1..], b);
    }
  }
}
