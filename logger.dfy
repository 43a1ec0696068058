// src/observability/logger.cpp: the process-wide logger. The level filter and the
// output format are fields set by init; format_message lays out one record. The clock is
// a parameter: `timestamp` is the already formatted local time (with its milliseconds,
// and for JSON the trailing 'Z'), which the model treats as an opaque string. Writing
// the record to stdout or to the log file is not modelled.

module Logging {
  import opened Strings

  /** LogLevel, in declaration order */
  datatype LogLevel = Debug | Info | Warn | Error

  /** The enum's underlying value, which orders the levels */
  function Rank(level: LogLevel): nat
  {
    match level
    case Debug => 0
    case Info => 1
    case Warn => 2
    case Error => 3
  }

  /** The level names init accepts */
  function ParseLevel(name: string): Option<LogLevel>
  {
    if name == "debug" then Some(Debug)
    else if name == "info" then Some(Info)
    else if name == "warn" then Some(Warn)
    else if name == "error" then Some(Error)
    else None
  }

  /** Logger::level_to_string */
  function LevelName(level: LogLevel): string
  {
    match level
    case Debug => "DEBUG"
    case Info => "INFO"
    case Warn => "WARN"
    case Error => "ERROR"
  }

  /** The upper-case name, lower-cased, is the name init accepts for the level */
  lemma ParseLevelOfName(level: LogLevel)
    ensures ParseLevel(Lower(LevelName(level))) == Some(level)
  {
    match level
    case Debug =>
      assert Lower("DEBUG") == "debug";
    case Info =>
      assert Lower("INFO") == "info";
    case Warn =>
      assert Lower("WARN") == "warn";
    case Error =>
      assert Lower("ERROR") == "error";
  }

  /** Exactly four strings name a level, each the lower-cased name of its level */
  lemma ParseLevelSpec(name: string)
    ensures ParseLevel(name).Some? <==> name in ["debug", "info", "warn", "error"]
    ensures ParseLevel(name).Some? ==> Lower(LevelName(ParseLevel(name).value)) == name
  {
    if ParseLevel(name).Some? {
      ParseLevelOfName(ParseLevel(name).value);
    }
  }

  /** Different levels have different names */
  lemma LevelNameInjective(a: LogLevel, b: LogLevel)
    requires LevelName(a) == LevelName(b)
    ensures a == b
  {
    ParseLevelOfName(a);
    ParseLevelOfName(b);
  }

  /** The levels are totally ordered DEBUG < INFO < WARN < ERROR */
  lemma RankOrder(a: LogLevel, b: LogLevel)
    ensures Rank(a) == Rank(b) <==> a == b
    ensures Rank(Debug) < Rank(Info) < Rank(Warn) < Rank(Error)
  {
  }

  /** The text layout: time, [LEVEL], [req:id] when there is one, message */
  function FormatText(timestamp: string, level: LogLevel, message: string, requestId: string): string
  {
    timestamp + " [" + LevelName(level) + "]"
    + (if requestId != "" then " [req:" + requestId + "]" else "")
    + " " + message
  }

  /** The JSON field for the request id, absent for an empty id */
  function RequestIdField(requestId: string): string
  {
    if requestId != "" then "\"request_id\":\"" + requestId + "\"," else ""
  }

  /** The JSON layout: timestamp, level, request_id when there is one, then the message,
      which is not escaped */
  function FormatJson(timestamp: string, level: LogLevel, message: string, requestId: string): string
  {
    "{" + "\"timestamp\":\"" + timestamp + "\","
    + "\"level\":\"" + LevelName(level) + "\","
    + RequestIdField(requestId)
    + "\"message\":\"" + message + "\"" + "}"
  }

  /** Logger::format_message, for the format the logger was set to */
  function FormatMessage(json: bool, timestamp: string, level: LogLevel, message: string, requestId: string): string
  {
    if json then FormatJson(timestamp, level, message, requestId)
    else FormatText(timestamp, level, message, requestId)
  }

  /** A text record starts with the time and level, ends with the message, and is the
      record without an id with " [req:<id>]" inserted after the level exactly when the
      id is non-empty */
  lemma TextLayout(timestamp: string, level: LogLevel, message: string, requestId: string)
    ensures StartsWith(FormatText(timestamp, level, message, requestId), timestamp + " [" + LevelName(level) + "]")
    ensures EndsWith(FormatText(timestamp, level, message, requestId), " " + message)
    ensures requestId == "" ==>
      FormatText(timestamp, level, message, requestId) == timestamp + " [" + LevelName(level) + "]" + " " + message
    ensures requestId != "" ==>
      FormatText(timestamp, level, message, requestId)
      == timestamp + " [" + LevelName(level) + "]" + (" [req:" + requestId + "]") + " " + message
    ensures |FormatText(timestamp, level, message, requestId)|
      == |timestamp| + |LevelName(level)| + |message| + 4 + (if requestId == "" then 0 else |requestId| + 7)
  {
    var head := timestamp + " [" + LevelName(level) + "]";
    var tag := if requestId != "" then " [req:" + requestId + "]" else "";
    var r := FormatText(timestamp, level, message, requestId);
    assert r == head + (tag + (" " + message)) by {
      AppendAssoc(head, tag, " " + message);
      AppendAssoc(head + tag, " ", message);
    }
    assert r[..|head|] == head;
    assert r[|r| - |" " + message|..] == " " + message;
  }

  /** A JSON record is the record without an id, with the request_id field inserted before
      the message exactly when the id is non-empty; the message closes the object as is */
  lemma JsonLayout(timestamp: string, level: LogLevel, message: string, requestId: string)
    ensures var head := "{\"timestamp\":\"" + timestamp + "\",\"level\":\"" + LevelName(level) + "\",";
      var tail := "\"message\":\"" + message + "\"}";
      FormatJson(timestamp, level, message, requestId) == head + RequestIdField(requestId) + tail
    ensures FormatJson(timestamp, level, message, requestId)[0] == '{'
    ensures EndsWith(FormatJson(timestamp, level, message, requestId), message + "\"}")
    ensures RequestIdField(requestId) == "" <==> requestId == ""
  {
    var head := "{\"timestamp\":\"" + timestamp + "\",\"level\":\"" + LevelName(level) + "\",";
    var field := RequestIdField(requestId);
    var r := FormatJson(timestamp, level, message, requestId);
    JsonParts(timestamp, level, message, requestId);
    JsonEnd(head + field, message);
    assert r[0] == head[0];
    if requestId != "" {
      assert |RequestIdField(requestId)| > 0;
    }
  }

  /** FormatJson as its head, the request_id field and its tail */
  lemma JsonParts(timestamp: string, level: LogLevel, message: string, requestId: string)
    ensures var head := "{\"timestamp\":\"" + timestamp + "\",\"level\":\"" + LevelName(level) + "\",";
      FormatJson(timestamp, level, message, requestId)
        == head + RequestIdField(requestId) + ("\"message\":\"" + message + "\"}")
  {
    var head := "{\"timestamp\":\"" + timestamp + "\",\"level\":\"" + LevelName(level) + "\",";
    var field := RequestIdField(requestId);
    assert "{" + "\"timestamp\":\"" == "{\"timestamp\":\"";
    assert "\"," + "\"level\":\"" == "\",\"level\":\"";
    AppendAssoc("{\"timestamp\":\"" + timestamp, "\",", "\"level\":\"");
    assert "\"" + "}" == "\"}";
    AppendAssoc(head + field + "\"message\":\"" + message, "\"", "}");
    AppendAssoc(head + field, "\"message\":\"" + message, "\"}");
    AppendAssoc(head + field, "\"message\":\"", message);
  }

  /** A record ending with the message field ends with the message and the closing "}" */
  lemma JsonEnd(front: string, message: string)
    ensures EndsWith(front + ("\"message\":\"" + message + "\"}"), message + "\"}")
  {
    var r := front + ("\"message\":\"" + message + "\"}");
    AppendAssoc(front, "\"message\":\"" + message, "\"}");
    AppendAssoc(front + "\"message\":\"", message, "\"}");
    assert r[|r| - |message + "\"}"|..] == message + "\"}";
  }

  /** Logger: the minimum level and the output format */
  class Logger {
    var minLevel: LogLevel
    var jsonFormat: bool

    /** The defaults: INFO, text format */
    constructor()
      ensures minLevel == Info && !jsonFormat
    {
      minLevel := Info;
      jsonFormat := false;
    }

    /** Logger::init: a recognised level name sets the minimum level, any other leaves it;
        the format is JSON exactly when it is "json". The output destination is not
        modelled. */
    method Init(level: string, format: string)
      modifies this
      ensures ParseLevel(level).Some? ==> minLevel == ParseLevel(level).value
      ensures ParseLevel(level).None? ==> minLevel == old(minLevel)
      ensures jsonFormat <==> format == "json"
    {
      if level == "debug" {
        minLevel := Debug;
      } else if level == "info" {
        minLevel := Info;
      } else if level == "warn" {
        minLevel := Warn;
      } else if level == "error" {
        minLevel := Error;
      }
      jsonFormat := format == "json";
    }

    /** Logger::log: the record written, or None when the level is below the minimum */
    method Log(level: LogLevel, message: string, requestId: string, timestamp: string) returns (record: Option<string>)
      ensures record.None? <==> Rank(level) < Rank(minLevel)
      ensures record.Some? ==> record.value == FormatMessage(jsonFormat, timestamp, level, message, requestId)
    {
      if Rank(level) < Rank(minLevel) {
        return None;
      }
      var formatted := FormatMessage(jsonFormat, timestamp, level, message, requestId);
      record := Some(formatted);
    }
  }

  /** With the default minimum INFO, debug records are dropped and the others written;
      after init("debug", ...) every level is written */
  method DefaultFilterScenario(message: string, timestamp: string)
    returns (debugDefault: Option<string>, infoDefault: Option<string>, debugAfterInit: Option<string>)
    ensures debugDefault.None?
    ensures infoDefault == Some(FormatText(timestamp, Info, message, ""))
    ensures debugAfterInit == Some(FormatText(timestamp, Debug, message, ""))
  {
    var logger := new Logger();
    debugDefault := logger.Log(Debug, message, "", timestamp);
    infoDefault := logger.Log(Info, message, "", timestamp);
    logger.Init("debug", "text");
    debugAfterInit := logger.Log(Debug, message, "", timestamp);
  }
}
