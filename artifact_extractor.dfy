/**
  `Process._parse_output`: splits the lines a command printed into plain output and
  chart artifacts. A line starting with the marker prefix carries a JSON object whose
  `type` says what it is; every other line is output and is kept with a `"\n"`.

  Each line is first classified (`Kind`): a plain line, a chart, a marker of another
  type, or a marker that makes the call fail. The scan over those classifications
  (`Scan`) is what the loop computes.

  `json.loads` and `parse_chart` are parameters: `loads` gives `None` where
  `json.loads` raises, `parseChart` gives `None` where `parse_chart` raises, and the
  chart type `C` is left abstract.
 */
module ArtifactExtractor {
  import opened Wrappers
  import opened Builtins
  import opened PyValues

  const ARTIFACT_PREFIX := "dtn_artifact_k39fd2:"

  /** What `_parse_output` can raise; each ends the whole call. */
  datatype ExtractError =
    | InvalidJson(text: string)      // json.loads raises JSONDecodeError
    | NotAnObject                    // the JSON is not an object, so data.pop("type") raises
    | MissingType                    // the object has no "type": KeyError
    | ChartValueNotAnObject          // parse_chart(**chart_data) on a non-mapping: TypeError
    | ChartRejected                  // parse_chart itself raises

  /** `ExecutionArtifacts(stdout, charts)` */
  datatype Artifacts<C> = Artifacts(stdout: string, charts: seq<C>)

  predicate IsMarker(line: string) {
    StartsWith(line, ARTIFACT_PREFIX)
  }

  /** The text a marker line hands to `json.loads`: the prefix removed, then stripped. */
  function MarkerJson(line: string): string {
    Strip(ReplaceFirst(line, ARTIFACT_PREFIX, ""))
  }

  /** `data.get("value", {})`: a `"value"` that is present is taken as it is, even `null`. */
  function ChartData(data: map<string, Value>): Value {
    if "value" in data then data["value"] else Dict(map[])
  }

  /** `parse_chart(**chart_data)`: only a mapping can be spread into keyword arguments. */
  function ChartArtifact<C>(data: map<string, Value>, parseChart: map<string, Value> -> Option<C>)
    : (r: Result<Option<C>, ExtractError>)
    ensures r.Ok? ==> r.value.Some?
  {
    match ChartData(data)
    case Dict(chartData) =>
      (match parseChart(chartData)
       case None => Err(ChartRejected)
       case Some(chart) => Ok(Some(chart)))
    case _ => Err(ChartValueNotAnObject)
  }

  /**
    What a loaded marker object contributes: `Some(chart)` for `"type": "chart"`, `None`
    for any other type, or the error Python raises on the way. `data.pop("type")` leaves
    `"value"` in place, so the chart data is looked up in the object as loaded.
   */
  function Classify<C>(v: Value, parseChart: map<string, Value> -> Option<C>): Result<Option<C>, ExtractError> {
    match v
    case Dict(data) =>
      if "type" !in data then Err(MissingType)
      else if data["type"] == Str("chart") then ChartArtifact(data, parseChart)
      else Ok(None)
    case _ => Err(NotAnObject)
  }

  /** What one marker line contributes, `json.loads` included. */
  function MarkerChart<C>(line: string, loads: string -> Option<Value>, parseChart: map<string, Value> -> Option<C>)
    : Result<Option<C>, ExtractError>
  {
    match loads(MarkerJson(line))
    case None => Err(InvalidJson(MarkerJson(line)))
    case Some(v) => Classify(v, parseChart)
  }

  /** The `type` a loaded object declares, if it is an object with one. */
  function DeclaredType(v: Value): Option<Value> {
    match v
    case Dict(data) => if "type" in data then Some(data["type"]) else None
    case _ => None
  }

  /** A marker line whose JSON loads to an object declaring `"type": "chart"`. */
  predicate IsChartMarker(line: string, loads: string -> Option<Value>) {
    IsMarker(line) && loads(MarkerJson(line)).Some? && DeclaredType(loads(MarkerJson(line)).value) == Some(Str("chart"))
  }

  /** How `_parse_output` treats one line. */
  datatype LineKind<C> =
    | Plain(text: string)           // kept as output
    | Chart(chart: C)               // a `"chart"` marker, parsed
    | OtherMarker                   // a marker of another type, dropped
    | Fail(error: ExtractError)     // a marker that raises

  function Kind<C>(line: string, loads: string -> Option<Value>, parseChart: map<string, Value> -> Option<C>): LineKind<C> {
    if !IsMarker(line) then Plain(line)
    else
      match MarkerChart(line, loads, parseChart)
      case Err(e) => Fail(e)
      case Ok(None) => OtherMarker
      case Ok(Some(chart)) => Chart(chart)
  }

  function Kinds<C>(lines: seq<string>, loads: string -> Option<Value>, parseChart: map<string, Value> -> Option<C>)
    : (ks: seq<LineKind<C>>)
    ensures |ks| == |lines|
    ensures forall i :: 0 <= i < |lines| ==> ks[i] == Kind(lines[i], loads, parseChart)
  {
    seq(|lines|, i requires 0 <= i < |lines| => Kind(lines[i], loads, parseChart))
  }

  /** The artifacts after one more line, given those of the lines before it. */
  function Step<C>(acc: Artifacts<C>, k: LineKind<C>): Result<Artifacts<C>, ExtractError> {
    match k
    case Plain(text) => Ok(Artifacts(acc.stdout + text + "\n", acc.charts))
    case Chart(chart) => Ok(Artifacts(acc.stdout, acc.charts + [chart]))
    case OtherMarker => Ok(acc)
    case Fail(e) => Err(e)
  }

  /** The lines' classifications taken in order from empty artifacts; the first failure ends it. */
  function Scan<C>(ks: seq<LineKind<C>>): Result<Artifacts<C>, ExtractError>
    decreases |ks|
  {
    if ks == [] then Ok(Artifacts("", []))
    else
      match Scan(ks[..|ks| - 1])
      case Err(e) => Err(e)
      case Ok(acc) => Step(acc, ks[|ks| - 1])
  }

  /** The outcome of `_parse_output(lines)`. */
  function Extract<C>(lines: seq<string>, loads: string -> Option<Value>, parseChart: map<string, Value> -> Option<C>)
    : Result<Artifacts<C>, ExtractError>
  {
    Scan(Kinds(lines, loads, parseChart))
  }

  lemma ScanSnoc<C>(ks: seq<LineKind<C>>, k: LineKind<C>)
    ensures Scan(ks + [k]) == match Scan(ks) case Err(e) => Err(e) case Ok(acc) => Step(acc, k)
  {
    assert (ks + [k])[..|ks|] == ks;
  }

  lemma KindsSnoc<C>(lines: seq<string>, i: nat, loads: string -> Option<Value>, parseChart: map<string, Value> -> Option<C>)
    requires i < |lines|
    ensures Kinds(lines[..i + 1], loads, parseChart) == Kinds(lines[..i], loads, parseChart) + [Kind(lines[i], loads, parseChart)]
  {
  }

  lemma ScanNextLine<C>(lines: seq<string>, i: nat, loads: string -> Option<Value>, parseChart: map<string, Value> -> Option<C>)
    requires i < |lines|
    ensures Scan(Kinds(lines[..i + 1], loads, parseChart)) ==
      match Scan(Kinds(lines[..i], loads, parseChart))
      case Err(e) => Err(e)
      case Ok(acc) => Step(acc, Kind(lines[i], loads, parseChart))
    ensures Kinds(lines, loads, parseChart)[..i + 1] == Kinds(lines[..i + 1], loads, parseChart)
  {
    KindsSnoc(lines, i, loads, parseChart);
    ScanSnoc(Kinds(lines[..i], loads, parseChart), Kind(lines[i], loads, parseChart));
  }

  lemma {:induction false} ErrorPersists<C>(ks: seq<LineKind<C>>, k: nat, e: ExtractError)
    requires k <= |ks| && Scan(ks[..k]) == Err(e)
    ensures Scan(ks) == Err(e)
    decreases |ks| - k
  {
    if k == |ks| {
      assert ks[..k] == ks;
    } else {
      assert ks[..k + 1] == ks[..k] + [ks[k]];
      ScanSnoc(ks[..k], ks[k]);
      ErrorPersists(ks, k + 1, e);
    }
  }

  /** One plain line: the loop appends it and a `"\n"` to `stdout`. */
  lemma PlainLineStep<C>(lines: seq<string>, i: nat, acc: Artifacts<C>,
                         loads: string -> Option<Value>, parseChart: map<string, Value> -> Option<C>)
    requires i < |lines| && !IsMarker(lines[i])
    requires Scan(Kinds(lines[..i], loads, parseChart)) == Ok(acc)
    ensures Scan(Kinds(lines[..i + 1], loads, parseChart)) == Ok(Artifacts(acc.stdout + lines[i] + "\n", acc.charts))
  {
    ScanNextLine(lines, i, loads, parseChart);
  }

  /** A marker line that raises ends the whole call with its error. */
  lemma FailingLineStep<C>(lines: seq<string>, i: nat, acc: Artifacts<C>, e: ExtractError,
                           loads: string -> Option<Value>, parseChart: map<string, Value> -> Option<C>)
    requires i < |lines| && IsMarker(lines[i]) && MarkerChart(lines[i], loads, parseChart) == Err(e)
    requires Scan(Kinds(lines[..i], loads, parseChart)) == Ok(acc)
    ensures Extract(lines, loads, parseChart) == Err(e)
  {
    ScanNextLine(lines, i, loads, parseChart);
    var ks := Kinds(lines, loads, parseChart);
    assert Kind(lines[i], loads, parseChart) == Fail(e);
    assert Scan(ks[..i + 1]) == Err(e);
    ErrorPersists(ks, i + 1, e);
  }

  /** A marker line of a type other than `"chart"` leaves the artifacts as they were. */
  lemma OtherLineStep<C>(lines: seq<string>, i: nat, acc: Artifacts<C>,
                         loads: string -> Option<Value>, parseChart: map<string, Value> -> Option<C>)
    requires i < |lines| && IsMarker(lines[i]) && MarkerChart(lines[i], loads, parseChart) == Ok(None)
    requires Scan(Kinds(lines[..i], loads, parseChart)) == Ok(acc)
    ensures Scan(Kinds(lines[..i + 1], loads, parseChart)) == Ok(acc)
  {
    ScanNextLine(lines, i, loads, parseChart);
    assert Kind(lines[i], loads, parseChart) == OtherMarker;
  }

  /** A `"chart"` marker line appends its chart. */
  lemma ChartLineStep<C>(lines: seq<string>, i: nat, acc: Artifacts<C>, chart: C,
                         loads: string -> Option<Value>, parseChart: map<string, Value> -> Option<C>)
    requires i < |lines| && IsMarker(lines[i]) && MarkerChart(lines[i], loads, parseChart) == Ok(Some(chart))
    requires Scan(Kinds(lines[..i], loads, parseChart)) == Ok(acc)
    ensures Scan(Kinds(lines[..i + 1], loads, parseChart)) == Ok(Artifacts(acc.stdout, acc.charts + [chart]))
  {
    ScanNextLine(lines, i, loads, parseChart);
    assert Kind(lines[i], loads, parseChart) == Chart(chart);
  }

  /** `Process._parse_output(lines)` */
  method ParseOutput<C>(lines: seq<string>, loads: string -> Option<Value>, parseChart: map<string, Value> -> Option<C>)
    returns (r: Result<Artifacts<C>, ExtractError>)
    ensures r == Extract(lines, loads, parseChart)
  {
    var stdout := "";
    var charts: seq<C> := [];
    for i := 0 to |lines|
      invariant Scan(Kinds(lines[..i], loads, parseChart)) == Ok(Artifacts(stdout, charts))
    {
      var line := lines[i];
      if !StartsWith(line, ARTIFACT_PREFIX) {
        PlainLineStep(lines, i, Artifacts(stdout, charts), loads, parseChart);
        stdout := stdout + line;
        stdout := stdout + "\n";
      } else {
        match MarkerChart(line, loads, parseChart)
        case Err(e) =>
          FailingLineStep(lines, i, Artifacts(stdout, charts), e, loads, parseChart);
          return Err(e);
        case Ok(None) =>
          OtherLineStep(lines, i, Artifacts(stdout, charts), loads, parseChart);
        case Ok(Some(chart)) =>
          ChartLineStep(lines, i, Artifacts(stdout, charts), chart, loads, parseChart);
          charts := charts + [chart];
      }
    }
    assert lines[..|lines|] == lines;
    return Ok(Artifacts(stdout, charts));
  }

  /** The texts of the plain lines, in order. */
  function Texts<C>(ks: seq<LineKind<C>>): seq<string>
    decreases |ks|
  {
    if ks == [] then []
    else Texts(ks[..|ks| - 1]) + (match ks[|ks| - 1] case Plain(text) => [text] case _ => [])
  }

  /** The parsed charts, in order. */
  function Charts<C>(ks: seq<LineKind<C>>): seq<C>
    decreases |ks|
  {
    if ks == [] then []
    else Charts(ks[..|ks| - 1]) + (match ks[|ks| - 1] case Chart(chart) => [chart] case _ => [])
  }

  predicate NoFailure<C>(ks: seq<LineKind<C>>) {
    forall i :: 0 <= i < |ks| ==> !ks[i].Fail?
  }

  /**
    The scan succeeds exactly when no line fails; its output is then every plain line
    followed by `"\n"`, in order, and its charts every parsed chart, in order.
   */
  lemma {:induction false} ScanCharacterized<C>(ks: seq<LineKind<C>>)
    ensures Scan(ks).Ok? <==> NoFailure(ks)
    ensures Scan(ks).Ok? ==> Scan(ks).value == Artifacts(JoinLines(Texts(ks)), Charts(ks))
    decreases |ks|
  {
    if ks != [] {
      var init, last := ks[..|ks| - 1], ks[|ks| - 1];
      ScanCharacterized(init);
      assert NoFailure(ks) <==> NoFailure(init) && !last.Fail?;
      if Scan(init).Ok? {
        match last
        case Plain(text) =>
          assert Texts(ks) == Texts(init) + [text];
          assert Charts(ks) == Charts(init);
          JoinLinesAppend(Texts(init), text);
        case Chart(chart) =>
          assert Texts(ks) == Texts(init);
          assert Charts(ks) == Charts(init) + [chart];
        case OtherMarker =>
          assert Texts(ks) == Texts(init);
          assert Charts(ks) == Charts(init);
        case Fail(e) =>
      }
    }
  }

  /** A failing scan fails with the error of its first failing line. */
  lemma {:induction false} ScanFailsAtFirst<C>(ks: seq<LineKind<C>>, e: ExtractError)
    requires Scan(ks) == Err(e)
    ensures exists i :: 0 <= i < |ks| && ks[i] == Fail(e) && NoFailure(ks[..i])
    decreases |ks|
  {
    var init, last := ks[..|ks| - 1], ks[|ks| - 1];
    if Scan(init).Err? {
      ScanFailsAtFirst(init, e);
      var i :| 0 <= i < |init| && init[i] == Fail(e) && NoFailure(init[..i]);
      assert init[..i] == ks[..i];
    } else {
      ScanCharacterized(init);
      assert ks[..|ks| - 1] == init;
    }
  }

  /** The lines that are not marker lines, in order. */
  function PlainLines(lines: seq<string>): seq<string>
    decreases |lines|
  {
    if lines == [] then []
    else
      var last := lines[|lines| - 1];
      PlainLines(lines[..|lines| - 1]) + (if IsMarker(last) then [] else [last])
  }

  /** The marker lines whose JSON is an object declaring `"type": "chart"`, in order. */
  function ChartLines(lines: seq<string>, loads: string -> Option<Value>): seq<string>
    decreases |lines|
  {
    if lines == [] then []
    else
      var last := lines[|lines| - 1];
      ChartLines(lines[..|lines| - 1], loads) + (if IsChartMarker(last, loads) then [last] else [])
  }

  predicate AllMarkersValid<C>(lines: seq<string>, loads: string -> Option<Value>, parseChart: map<string, Value> -> Option<C>) {
    forall i :: 0 <= i < |lines| && IsMarker(lines[i]) ==> MarkerChart(lines[i], loads, parseChart).Ok?
  }

  /** A loaded object that passes contributes a chart exactly when it declares `"type": "chart"`. */
  lemma ClassifyType<C>(v: Value, parseChart: map<string, Value> -> Option<C>)
    requires Classify(v, parseChart).Ok?
    ensures Classify(v, parseChart).value.Some? <==> DeclaredType(v) == Some(Str("chart"))
  {
  }

  /** A valid marker line contributes a chart exactly when it declares `"type": "chart"`. */
  lemma MarkerChartType<C>(line: string, loads: string -> Option<Value>, parseChart: map<string, Value> -> Option<C>)
    requires IsMarker(line) && MarkerChart(line, loads, parseChart).Ok?
    ensures MarkerChart(line, loads, parseChart).value.Some? <==> IsChartMarker(line, loads)
  {
    ClassifyType(loads(MarkerJson(line)).value, parseChart);
  }

  /** How one line is classified, in terms of the line itself. */
  lemma KindOfLine<C>(line: string, loads: string -> Option<Value>, parseChart: map<string, Value> -> Option<C>)
    ensures Kind(line, loads, parseChart).Plain? <==> !IsMarker(line)
    ensures Kind(line, loads, parseChart).Plain? ==> Kind(line, loads, parseChart).text == line
    ensures Kind(line, loads, parseChart).Fail? <==> IsMarker(line) && MarkerChart(line, loads, parseChart).Err?
    ensures Kind(line, loads, parseChart).Fail? ==> MarkerChart(line, loads, parseChart) == Err(Kind(line, loads, parseChart).error)
    ensures Kind(line, loads, parseChart).Chart? <==> IsMarker(line) && MarkerChart(line, loads, parseChart).Ok? && IsChartMarker(line, loads)
    ensures Kind(line, loads, parseChart).Chart? ==> MarkerChart(line, loads, parseChart) == Ok(Some(Kind(line, loads, parseChart).chart))
  {
    if IsMarker(line) && MarkerChart(line, loads, parseChart).Ok? {
      MarkerChartType(line, loads, parseChart);
    }
  }

  lemma KindsLast<C>(lines: seq<string>, loads: string -> Option<Value>, parseChart: map<string, Value> -> Option<C>)
    requires lines != []
    ensures Kinds(lines, loads, parseChart) ==
      Kinds(lines[..|lines| - 1], loads, parseChart) + [Kind(lines[|lines| - 1], loads, parseChart)]
  {
    KindsSnoc(lines, |lines| - 1, loads, parseChart);
    assert lines[..|lines|] == lines;
  }

  lemma TextsSnoc<C>(ks: seq<LineKind<C>>, k: LineKind<C>)
    ensures Texts(ks + [k]) == Texts(ks) + (if k.Plain? then [k.text] else [])
  {
    assert (ks + [k])[..|ks|] == ks;
  }

  lemma ChartsSnoc<C>(ks: seq<LineKind<C>>, k: LineKind<C>)
    ensures Charts(ks + [k]) == Charts(ks) + (if k.Chart? then [k.chart] else [])
  {
    assert (ks + [k])[..|ks|] == ks;
  }

  lemma NoFailureInit<C>(ks: seq<LineKind<C>>, k: LineKind<C>)
    requires NoFailure(ks + [k])
    ensures NoFailure(ks) && !k.Fail?
  {
    assert (ks + [k])[|ks|] == k;
    assert forall i :: 0 <= i < |ks| ==> (ks + [k])[i] == ks[i];
  }

  /**
    The outcomes of one marker line: text `json.loads` rejects, JSON that is not an
    object, and an object without `"type"` fail; any type but `"chart"` is dropped; a
    chart fails unless its `"value"` (default `{}`) is an object `parse_chart` accepts.
   */
  lemma MarkerOutcomes<C>(line: string, loads: string -> Option<Value>, parseChart: map<string, Value> -> Option<C>)
    requires IsMarker(line)
    ensures loads(MarkerJson(line)).None? ==> Kind(line, loads, parseChart) == Fail(InvalidJson(MarkerJson(line)))
    ensures loads(MarkerJson(line)).Some? && !loads(MarkerJson(line)).value.Dict? ==>
      Kind(line, loads, parseChart) == Fail(NotAnObject)
    ensures loads(MarkerJson(line)).Some? && loads(MarkerJson(line)).value.Dict? ==>
      var data := loads(MarkerJson(line)).value.entries;
      && ("type" !in data ==> Kind(line, loads, parseChart) == Fail(MissingType))
      && ("type" in data && data["type"] != Str("chart") ==> Kind(line, loads, parseChart) == OtherMarker)
      && ("type" in data && data["type"] == Str("chart") && !ChartData(data).Dict? ==>
            Kind(line, loads, parseChart) == Fail(ChartValueNotAnObject))
      && ("type" in data && data["type"] == Str("chart") && ChartData(data).Dict? ==>
            Kind(line, loads, parseChart) ==
              match parseChart(ChartData(data).entries)
              case None => Fail(ChartRejected)
              case Some(chart) => Chart(chart))
  {
  }

  lemma {:induction false} TextsOfLines<C>(lines: seq<string>, loads: string -> Option<Value>, parseChart: map<string, Value> -> Option<C>)
    ensures Texts(Kinds(lines, loads, parseChart)) == PlainLines(lines)
    decreases |lines|
  {
    if lines != [] {
      var init, last := lines[..|lines| - 1], lines[|lines| - 1];
      TextsOfLines(init, loads, parseChart);
      KindsLast(lines, loads, parseChart);
      TextsSnoc(Kinds(init, loads, parseChart), Kind(last, loads, parseChart));
      KindOfLine(last, loads, parseChart);
    }
  }

  lemma {:induction false} ChartsOfLines<C>(lines: seq<string>, loads: string -> Option<Value>, parseChart: map<string, Value> -> Option<C>)
    requires NoFailure(Kinds(lines, loads, parseChart))
    ensures |Charts(Kinds(lines, loads, parseChart))| == |ChartLines(lines, loads)|
    ensures forall j :: 0 <= j < |ChartLines(lines, loads)| ==>
      MarkerChart(ChartLines(lines, loads)[j], loads, parseChart) == Ok(Some(Charts(Kinds(lines, loads, parseChart))[j]))
    decreases |lines|
  {
    if lines != [] {
      var init, last := lines[..|lines| - 1], lines[|lines| - 1];
      KindsLast(lines, loads, parseChart);
      NoFailureInit(Kinds(init, loads, parseChart), Kind(last, loads, parseChart));
      ChartsOfLines(init, loads, parseChart);
      var k := Kind(last, loads, parseChart);
      ChartsSnoc(Kinds(init, loads, parseChart), k);
      KindOfLine(last, loads, parseChart);
      assert k.Chart? <==> IsChartMarker(last, loads);
      var cs, cls := Charts(Kinds(init, loads, parseChart)), ChartLines(init, loads);
      if k.Chart? {
        assert ChartLines(lines, loads) == cls + [last];
        assert Charts(Kinds(lines, loads, parseChart)) == cs + [k.chart];
        forall j | 0 <= j < |cls| + 1
          ensures MarkerChart((cls + [last])[j], loads, parseChart) == Ok(Some((cs + [k.chart])[j]))
        {
          if j < |cls| {
            assert (cls + [last])[j] == cls[j] && (cs + [k.chart])[j] == cs[j];
          }
        }
      } else {
        assert ChartLines(lines, loads) == cls;
        assert Charts(Kinds(lines, loads, parseChart)) == cs;
      }
    }
  }

  /**
    `_parse_output` succeeds exactly when every marker line is valid; `stdout` is then
    each non-marker line followed by `"\n"`, in order, and `charts` has one entry per
    `"chart"` marker line, in order, each what `parse_chart` made of that line.
   */
  lemma ExtractCharacterized<C>(lines: seq<string>, loads: string -> Option<Value>, parseChart: map<string, Value> -> Option<C>)
    ensures Extract(lines, loads, parseChart).Ok? <==> AllMarkersValid(lines, loads, parseChart)
    ensures Extract(lines, loads, parseChart).Ok? ==>
      var a := Extract(lines, loads, parseChart).value;
      && a.stdout == JoinLines(PlainLines(lines))
      && |a.charts| == |ChartLines(lines, loads)|
      && forall j :: 0 <= j < |a.charts| ==> MarkerChart(ChartLines(lines, loads)[j], loads, parseChart) == Ok(Some(a.charts[j]))
  {
    var ks := Kinds(lines, loads, parseChart);
    ScanCharacterized(ks);
    forall i | 0 <= i < |lines| {
      KindOfLine(lines[i], loads, parseChart);
    }
    assert NoFailure(ks) <==> AllMarkersValid(lines, loads, parseChart);
    if NoFailure(ks) {
      TextsOfLines(lines, loads, parseChart);
      ChartsOfLines(lines, loads, parseChart);
    }
  }

  /** When `_parse_output` fails, it fails with the error of its first invalid marker line. */
  lemma ExtractFailsAtFirstInvalid<C>(lines: seq<string>, e: ExtractError, loads: string -> Option<Value>,
                                      parseChart: map<string, Value> -> Option<C>)
    requires Extract(lines, loads, parseChart) == Err(e)
    ensures exists i :: 0 <= i < |lines| && IsMarker(lines[i]) && MarkerChart(lines[i], loads, parseChart) == Err(e)
                      && AllMarkersValid(lines[..i], loads, parseChart)
  {
    var ks := Kinds(lines, loads, parseChart);
    ScanFailsAtFirst(ks, e);
    var i :| 0 <= i < |ks| && ks[i] == Fail(e) && NoFailure(ks[..i]);
    KindOfLine(lines[i], loads, parseChart);
    var prefix := lines[..i];
    forall j | 0 <= j < i && IsMarker(prefix[j])
      ensures MarkerChart(prefix[j], loads, parseChart).Ok?
    {
      assert prefix[j] == lines[j];
      assert ks[..i][j] == ks[j];
      KindOfLine(lines[j], loads, parseChart);
    }
    assert AllMarkersValid(prefix, loads, parseChart);
  }

  /** Output with no marker line comes back as it is, one `"\n"` per line, and no chart. */
  lemma NoMarkerLines<C>(lines: seq<string>, loads: string -> Option<Value>, parseChart: map<string, Value> -> Option<C>)
    requires forall i :: 0 <= i < |lines| ==> !IsMarker(lines[i])
    ensures Extract(lines, loads, parseChart) == Ok(Artifacts(JoinLines(lines), []))
  {
    ExtractCharacterized(lines, loads, parseChart);
    PlainLinesOfPlain(lines);
    ChartLinesOfPlain(lines, loads);
  }

  lemma {:induction false} PlainLinesOfPlain(lines: seq<string>)
    requires forall i :: 0 <= i < |lines| ==> !IsMarker(lines[i])
    ensures PlainLines(lines) == lines
    decreases |lines|
  {
    if lines != [] {
      PlainLinesOfPlain(lines[..|lines| - 1]);
      assert lines[..|lines| - 1] + [lines[|lines| - 1]] == lines;
    }
  }

  lemma {:induction false} ChartLinesOfPlain(lines: seq<string>, loads: string -> Option<Value>)
    requires forall i :: 0 <= i < |lines| ==> !IsMarker(lines[i])
    ensures ChartLines(lines, loads) == []
    decreases |lines|
  {
    if lines != [] {
      ChartLinesOfPlain(lines[..|lines| - 1], loads);
    }
  }

  /** A line holding the prefix followed by `payload` hands `payload`, stripped, to `json.loads`. */
  lemma MarkerJsonOf(payload: string)
    ensures IsMarker(ARTIFACT_PREFIX + payload)
    ensures MarkerJson(ARTIFACT_PREFIX + payload) == Strip(payload)
  {
    var marker := ARTIFACT_PREFIX + payload;
    assert marker[..|ARTIFACT_PREFIX|] == ARTIFACT_PREFIX;
    ReplaceLeadingPrefix(marker, ARTIFACT_PREFIX);
    assert marker[|ARTIFACT_PREFIX|..] == payload;
  }

  /** A marker carrying a `"chart"` object whose value `parse_chart` accepts is parsed into that chart. */
  lemma ChartMarkerKind<C>(payload: string, value: map<string, Value>, chart: C,
                           loads: string -> Option<Value>, parseChart: map<string, Value> -> Option<C>)
    requires loads(Strip(payload)) == Some(Dict(map["type" := Str("chart"), "value" := Dict(value)]))
    requires parseChart(value) == Some(chart)
    ensures Kind(ARTIFACT_PREFIX + payload, loads, parseChart) == Chart(chart)
  {
    MarkerJsonOf(payload);
    var data := map["type" := Str("chart"), "value" := Dict(value)];
    assert "type" in data && data["type"] == Str("chart");
    assert ChartData(data) == Dict(value);
  }

  lemma ScanPlainChartPlain<C>(ks: seq<LineKind<C>>, chart: C)
    requires |ks| == 3 && ks[0] == Plain("a") && ks[1] == Chart(chart) && ks[2] == Plain("b")
    ensures Scan(ks) == Ok(Artifacts("a\nb\n", [chart]))
  {
    var ka, kc, kb: LineKind<C> := Plain("a"), Chart(chart), Plain("b");
    ScanSnoc([], ka);
    assert [] + [ka] == [ka] && "" + "a" + "\n" == "a\n";
    assert Scan([ka]) == Ok(Artifacts("a\n", []));
    ScanSnoc([ka], kc);
    assert [] + [chart] == [chart];
    assert Scan([ka] + [kc]) == Ok(Artifacts("a\n", [chart]));
    ScanSnoc([ka] + [kc], kb);
    assert "a\n" + "b" + "\n" == "a\nb\n";
    assert [ka] + [kc] + [kb] == ks;
  }

  /**
    The worked case: plain `"a"`, a chart marker, plain `"b"` give stdout `"a\nb\n"` and
    exactly that one chart.
   */
  lemma OneChartBetweenTwoLines<C>(payload: string, value: map<string, Value>, chart: C,
                                   loads: string -> Option<Value>, parseChart: map<string, Value> -> Option<C>)
    requires loads(Strip(payload)) == Some(Dict(map["type" := Str("chart"), "value" := Dict(value)]))
    requires parseChart(value) == Some(chart)
    ensures Extract(["a", ARTIFACT_PREFIX + payload, "b"], loads, parseChart) == Ok(Artifacts("a\nb\n", [chart]))
  {
    ChartMarkerKind(payload, value, chart, loads, parseChart);
    var lines := ["a", ARTIFACT_PREFIX + payload, "b"];
    assert Kind(lines[0], loads, parseChart) == Plain("a");
    assert Kind(lines[2], loads, parseChart) == Plain("b");
    var ks := Kinds(lines, loads, parseChart);
    assert lines[1] == ARTIFACT_PREFIX + payload;
    assert |ks| == 3 && ks[0] == Plain("a") && ks[1] == Chart(chart) && ks[2] == Plain("b");
    ScanPlainChartPlain(ks, chart);
  }
}
