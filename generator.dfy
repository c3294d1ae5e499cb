/** `JSON::Generator`: counts the frames the I/O manager delivers, turns each
    into a frame record (inline, or through a worker), gates the delivery of
    records on an active data source, and keeps the JSON map used in manual
    mode together with the setting that remembers its location. */
module Generator {
  import opened Wrappers
  import opened Json
  import opened DocumentBuilder
  import opened Pipeline
  import Mqtt

  /** What the generator reads from the CSV player and the I/O manager. */
  datatype Io = Io(csvOpen: bool, deviceConnected: bool, separator: string)

  /** The condition under which `loadJFI` forwards a record. */
  predicate Forwards(io: Io, mqttSubscribed: bool)
  {
    io.csvOpen || io.deviceConnected || mqttSubscribed
  }

  /** The records a frame's outcome emits: its record, if it has one. */
  function Emitted(record: Option<FrameInfo>): (r: seq<FrameInfo>)
    ensures |r| <= 1
    ensures r == [] <==> record.None?
  {
    if record.Some? then [record.value] else []
  }

  /** `QFileInfo::fileName`: the part of a path after its last `'/'`. */
  function BaseName(path: string): (r: string)
    ensures '/' !in r
    ensures |r| <= |path| && path[|path| - |r|..] == r
    ensures |r| < |path| ==> path[|path| - |r| - 1] == '/'
    decreases |path|
  {
    if path == [] then []
    else if path[|path| - 1] == '/' then []
    else
      var init := path[..|path| - 1];
      var last := BaseName(init);
      assert path[|init| - |last|..] == init[|init| - |last|..] + [path[|init|]];
      assert |last| < |init| ==> path[|init| - |last| - 1] == init[|init| - |last| - 1];
      last + [path[|init|]]
  }

  class Generator {
    var frameCount: nat
    var opMode: OperationMode
    var separateThread: bool
    var jsonMapData: string
    /** `m_jsonMap.isOpen()` and `m_jsonMap.fileName()` */
    var mapOpen: bool
    var mapFileName: string
    /** The `json_map_location` setting. */
    var savedPath: string
    /** The scripts `m_engine` has evaluated. */
    var engine: seq<string>
    /** The records `jsonChanged` has carried, in order. */
    var emitted: seq<FrameInfo>

    /** Map data is only ever held while the map file is open. */
    predicate Valid()
      reads this
    {
      mapOpen || jsonMapData == []
    }

    /** The map state after `loadJsonMap(path)` for a non-empty path, given
        the file's contents (`None` when it cannot be opened). A file that
        opens and parses is kept open with its contents loaded and its path
        saved; otherwise the map is closed and empty and `""` is saved. */
    predicate LoadedFrom(path: string, contents: Option<string>, parse: Parser)
      reads this
    {
      && mapFileName == path
      && match contents
         case Some(text) =>
           if parse(text).Some? then mapOpen && jsonMapData == text && savedPath == path
           else !mapOpen && jsonMapData == [] && savedPath == []
         case None => !mapOpen && jsonMapData == [] && savedPath == []
    }

    /** The constructor and `readSettings`: the map saved in `savedSetting`,
        if any, is loaded from `contents`. */
    constructor (savedSetting: string, contents: Option<string>, parse: Parser)
      ensures Valid()
      ensures frameCount == 0 && opMode == Automatic && !separateThread
      ensures engine == [] && emitted == []
      ensures savedSetting == [] ==> !mapOpen && jsonMapData == [] && savedPath == [] && mapFileName == []
      ensures savedSetting != [] ==> LoadedFrom(savedSetting, contents, parse)
    {
      frameCount, opMode, separateThread := 0, Automatic, false;
      jsonMapData, mapOpen, mapFileName, savedPath := [], false, [], savedSetting;
      engine, emitted := [], [];
      new;
      ReadSettings(contents, parse);
    }

    /** `readSettings` */
    method ReadSettings(contents: Option<string>, parse: Parser)
      requires Valid()
      modifies this`jsonMapData, this`mapOpen, this`mapFileName, this`savedPath
      ensures Valid()
      ensures old(savedPath) == [] ==>
        jsonMapData == old(jsonMapData) && mapOpen == old(mapOpen) && mapFileName == old(mapFileName) && savedPath == []
      ensures old(savedPath) != [] ==> LoadedFrom(old(savedPath), contents, parse)
    {
      var path := savedPath;
      if path != [] {
        LoadJsonMap(path, contents, parse);
      }
    }

    /** `loadJsonMap(path)`, with the file's contents given (`None` when it
        cannot be opened for reading). */
    method LoadJsonMap(path: string, contents: Option<string>, parse: Parser)
      requires Valid()
      modifies this`jsonMapData, this`mapOpen, this`mapFileName, this`savedPath
      ensures Valid()
      ensures path == [] ==>
        jsonMapData == old(jsonMapData) && mapOpen == old(mapOpen)
        && mapFileName == old(mapFileName) && savedPath == old(savedPath)
      ensures path != [] ==> LoadedFrom(path, contents, parse)
      ensures path != [] ==> JsonMapFilepath() == (if mapOpen then path else [])
    {
      if path == [] {
        return;
      }
      if mapOpen {
        mapOpen := false;
        jsonMapData := [];
      }
      mapFileName := path;
      match contents
      case Some(data) =>
        mapOpen := true;
        var document := parse(data);
        if document.None? {
          mapOpen := false;
          savedPath := [];
        } else {
          savedPath := path;
          jsonMapData := data;
        }
      case None =>
        jsonMapData := [];
        savedPath := [];
        mapOpen := false;
    }

    /** `jsonMapFilename()` */
    function JsonMapFilename(): (r: string)
      reads this
      ensures '/' !in r
      ensures !mapOpen ==> r == []
    {
      if mapOpen then BaseName(mapFileName) else []
    }

    /** `jsonMapFilepath()`: the path of the open map file, empty when no map
        is open; the file name is its last component. */
    function JsonMapFilepath(): (r: string)
      reads this
      ensures !mapOpen ==> r == []
      ensures mapOpen ==> r == mapFileName
      ensures JsonMapFilename() == BaseName(r)
      ensures |JsonMapFilename()| <= |r| && r[|r| - |JsonMapFilename()|..] == JsonMapFilename()
    {
      if mapOpen then mapFileName else []
    }

    /** `setOperationMode` */
    method SetOperationMode(mode: OperationMode)
      modifies this`opMode
      ensures opMode == mode
    {
      opMode := mode;
    }

    /** `setProcessFramesInSeparateThread` */
    method SetProcessFramesInSeparateThread(threaded: bool)
      modifies this`separateThread
      ensures separateThread == threaded
    {
      separateThread := threaded;
    }

    /** `reset` */
    method Reset()
      modifies this`frameCount, this`emitted
      ensures frameCount == 0
      ensures emitted == old(emitted) + [EmptyFrame]
    {
      frameCount := 0;
      emitted := emitted + [EmptyFrame];
    }

    /** `loadJFI`: forward the record while a data source is active, reset otherwise. */
    method LoadJfi(info: FrameInfo, io: Io, mqtt: Mqtt.Client)
      modifies this`frameCount, this`emitted
      ensures Forwards(io, mqtt.IsSubscribed()) ==>
        frameCount == old(frameCount) && emitted == old(emitted) + [info]
      ensures !Forwards(io, mqtt.IsSubscribed()) ==>
        frameCount == 0 && emitted == old(emitted) + [EmptyFrame]
    {
      var csvOpen := io.csvOpen;
      var devOpen := io.deviceConnected;
      var mqttSub := mqtt.IsSubscribed();
      if csvOpen || devOpen || mqttSub {
        emitted := emitted + [info];
      } else {
        Reset();
      }
    }

    /** `loadJSON`: count the document as a frame and deliver it through `loadJFI`. */
    method LoadJson(json: Value, now: Timestamp, io: Io, mqtt: Mqtt.Client)
      modifies this`frameCount, this`emitted
      ensures Forwards(io, mqtt.IsSubscribed()) ==>
        frameCount == old(frameCount) + 1 && emitted == old(emitted) + [Frame(old(frameCount) + 1, now, json)]
      ensures !Forwards(io, mqtt.IsSubscribed()) ==>
        frameCount == 0 && emitted == old(emitted) + [EmptyFrame]
    {
      frameCount := frameCount + 1;
      var info := Frame(frameCount, now, json);
      LoadJfi(info, io, mqtt);
    }

    /** `processFrame`: the inline path, on the engine shared by all inline
        frames; its record goes straight to `jsonChanged`, not through `loadJFI`. */
    method ProcessFrame(data: string, frame: nat, time: Timestamp, separator: string,
                        parse: Parser, eval: Evaluator)
      modifies this`engine, this`emitted
      ensures var o := Processed(data, frame, time, opMode, jsonMapData, separator, old(engine), parse, eval);
        engine == o.engine && emitted == old(emitted) + Emitted(o.record)
    {
      var record, after := Pipeline.ProcessFrame(data, frame, time, opMode, jsonMapData, separator, engine, parse, eval);
      engine := after;
      if record.Some? {
        emitted := emitted + [record.value];
      }
    }

    /** `readData`: drop the frame while a CSV file replays or when it is
        empty; count it otherwise, before any parsing, and process it inline or
        in a worker. A worker starts from a fresh engine and hands its record
        to `loadJFI`. */
    method ReadData(data: string, io: Io, mqtt: Mqtt.Client, now: Timestamp, parse: Parser, eval: Evaluator)
      modifies this`frameCount, this`emitted, this`engine
      ensures io.csvOpen || data == [] ==>
        frameCount == old(frameCount) && emitted == old(emitted) && engine == old(engine)
      ensures !io.csvOpen && data != [] && !separateThread ==>
        var o := Processed(data, old(frameCount) + 1, now, opMode, jsonMapData, io.separator, old(engine), parse, eval);
        && frameCount == old(frameCount) + 1
        && engine == o.engine
        && emitted == old(emitted) + Emitted(o.record)
      ensures !io.csvOpen && data != [] && separateThread ==>
        var record := Processed(data, old(frameCount) + 1, now, opMode, jsonMapData, io.separator, [], parse, eval).record;
        && engine == old(engine)
        && (record.None? ==> frameCount == old(frameCount) + 1 && emitted == old(emitted))
        && (record.Some? && Forwards(io, mqtt.IsSubscribed()) ==>
              frameCount == old(frameCount) + 1 && emitted == old(emitted) + [record.value])
        && (record.Some? && !Forwards(io, mqtt.IsSubscribed()) ==>
              frameCount == 0 && emitted == old(emitted) + [EmptyFrame])
    {
      if io.csvOpen {
        return;
      }
      if data == [] {
        return;
      }
      frameCount := frameCount + 1;
      if separateThread {
        var record := WorkerProcess(data, frameCount, now, opMode, jsonMapData, io.separator, parse, eval);
        if record.Some? {
          LoadJfi(record.value, io, mqtt);
        }
      } else {
        ProcessFrame(data, frameCount, now, io.separator, parse, eval);
      }
    }
  }
}
