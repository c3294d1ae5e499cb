/** The work `Generator::processFrame` and `JSONWorker::process` share: turn
    the bytes of one frame into a frame record, either by parsing them as the
    JSON document itself (automatic mode) or by substituting the separated
    fields into the JSON map and evaluating every dataset value (manual mode).
    A record is produced only when the JSON parse reports no error. */
module Pipeline {
  import opened Wrappers
  import opened Json
  import Text
  import Placeholder
  import opened DocumentBuilder

  /** `Generator::OperationMode` */
  datatype OperationMode = Manual | Automatic

  /** `QDateTime` values are opaque here. */
  type Timestamp = int

  /** `JFI_Object`: what `jsonChanged` carries. `EmptyFrame` is `JFI_Empty()`. */
  datatype FrameInfo = EmptyFrame | Frame(number: nat, time: Timestamp, document: Value)

  /** `QJsonDocument::fromJson`: the document, or `None` on a parse error. */
  type Parser = string -> Option<Value>

  /** The record of a frame (if one is emitted) and the engine history after it. */
  datatype Outcome = Outcome(record: Option<FrameInfo>, engine: seq<string>)

  /** The JSON text of a manual-mode frame: the map with `%1..%n` replaced by the fields. */
  function MappedText(mapData: string, separator: string, data: string): string
  {
    Placeholder.Substituted(mapData, Text.Split(data, separator))
  }

  /** What one frame produces, given the mode, the map and the separator in
      force and the scripts the engine has already run. */
  function Processed(data: string, frame: nat, time: Timestamp, mode: OperationMode,
                     mapData: string, separator: string, engine: seq<string>,
                     parse: Parser, eval: Evaluator): (r: Outcome)
    ensures r.record.Some? ==> r.record.value.Frame? && r.record.value.number == frame && r.record.value.time == time
    ensures mode == Automatic ==>
      && (r.record.Some? <==> parse(data).Some?)
      && (r.record.Some? ==> r.record.value.document == parse(data).value)
      && r.engine == engine
    ensures mode == Manual && mapData == [] ==> r.record.None? && r.engine == engine
    ensures mode == Manual && mapData != [] ==>
      && (r.record.Some? <==> parse(MappedText(mapData, separator, data)).Some?)
      && (r.record.Some? ==> r.record.value.document == Built(parse(MappedText(mapData, separator, data)).value, engine, eval))
      && (r.record.None? ==> r.engine == engine)
      && (parse(MappedText(mapData, separator, data)).Some? ==>
            r.engine == EngineAfter(parse(MappedText(mapData, separator, data)).value, engine))
  {
    if mode == Automatic then
      var parsed := parse(data);
      Outcome(if parsed.Some? then Some(Frame(frame, time, parsed.value)) else None, engine)
    else if mapData == [] then
      Outcome(None, engine)
    else
      var parsed := parse(MappedText(mapData, separator, data));
      var root := if parsed.Some? then parsed.value else Null;
      Outcome(if parsed.Some? then Some(Frame(frame, time, Built(root, engine, eval))) else None,
              EngineAfter(root, engine))
  }

  /** The body shared by `processFrame` and `JSONWorker::process`, run on an
      engine that has already evaluated `engine`. */
  method ProcessFrame(data: string, frame: nat, time: Timestamp, mode: OperationMode,
                      mapData: string, separator: string, engine: seq<string>,
                      parse: Parser, eval: Evaluator)
    returns (record: Option<FrameInfo>, engineAfter: seq<string>)
    ensures Outcome(record, engineAfter) == Processed(data, frame, time, mode, mapData, separator, engine, parse, eval)
  {
    var parsed: Option<Value>;
    var document := Null;
    engineAfter := engine;
    if mode == Automatic {
      parsed := parse(data);
      if parsed.Some? {
        document := parsed.value;
      }
    } else {
      if mapData == [] {
        return None, engine;
      }
      var fields := Text.Split(data, separator);
      var json := Placeholder.Substitute(mapData, fields);
      parsed := parse(json);
      var root := if parsed.Some? then parsed.value else Null;
      document, engineAfter := Evaluate(root, engine, eval);
    }
    if parsed.Some? {
      record := Some(Frame(frame, time, document));
    } else {
      record := None;
    }
  }

  /** `JSONWorker::process`: the same work on an engine made for this frame alone. */
  method WorkerProcess(data: string, frame: nat, time: Timestamp, mode: OperationMode,
                       mapData: string, separator: string, parse: Parser, eval: Evaluator)
    returns (record: Option<FrameInfo>)
    ensures record == Processed(data, frame, time, mode, mapData, separator, [], parse, eval).record
  {
    var engine;
    record, engine := ProcessFrame(data, frame, time, mode, mapData, separator, [], parse, eval);
  }

  /** A document with one group holding one dataset whose value is `v`. */
  function SingleDataset(v: string): Value
  {
    Object(map["g" := Array([Object(map["d" := Array([Object(map["v" := Str(v)])])])])])
  }

  /** The dataset value of a one-dataset document is replaced by the
      script's result when the script runs, and kept when it raises. */
  lemma SingleDatasetEvaluated(script: string, engine: seq<string>, eval: Evaluator)
    ensures eval(engine, script).Some? ==>
      Built(SingleDataset(script), engine, eval) == SingleDataset(eval(engine, script).value)
    ensures eval(engine, script).None? ==>
      Built(SingleDataset(script), engine, eval) == SingleDataset(script)
  {
    var dataset := Object(map["v" := Str(script)]);
    var group := Object(map["d" := Array([dataset])]);
    assert Groups(SingleDataset(script)) == [group];
    assert Datasets(group) == [dataset];
    assert Expression(dataset) == script;
    assert [dataset][..0] == [] && [group][..0] == [];
    assert engine + Expressions([]) == engine;
    assert engine + GroupExpressions([]) == engine;
    var result := eval(engine, script);
    var ds := EvaluatedDatasets([dataset], engine, eval);
    assert ds[0] == Evaluated(dataset, result);
    assert ds == [Evaluated(dataset, result)];
    var gs := EvaluatedGroups([group], engine, eval);
    assert gs[0] == EvaluatedGroup(group, engine, eval);
    assert gs == [EvaluatedGroup(group, engine, eval)];
    var evaluated := Evaluated(dataset, result);
    if result.Some? {
      assert evaluated == Object(map["v" := Str(result.value)]);
    } else {
      assert evaluated == dataset;
    }
    assert EvaluatedGroup(group, engine, eval) == Object(map["d" := Array([evaluated])]);
    assert Built(SingleDataset(script), engine, eval)
        == Object(map["g" := Array([Object(map["d" := Array([evaluated])])])]);
  }
}
