// From a printed line to the request the bridge acts on: what the scanner reads
// from every line the client can send (src/pydebug/api/uvm_transport.py,
// src/pydebug/c_bridge/uvm_bridge.c).

module BridgeLines {
  import opened Bits
  import opened Registers
  import opened Json
  import opened LineProtocol
  import Requests

  const OP_BUFFER := 32
  const TEXT_BUFFER := 2048
  /** fgets into RECV_BUF_SZ characters keeps at most this many before the newline. */
  const LINE_LIMIT := 1022

  function OpNamed(name: string): Requests.OpName
  {
    if name == "shutdown" then Requests.ShutdownOp
    else if name == "read" then Requests.ReadOp
    else if name == "write" then Requests.WriteOp
    else if name == "reset" then Requests.ResetOp
    else if name == "dtmcs" then Requests.DtmcsOp
    else if name == "dmi_scan" then Requests.DmiScanOp
    else if name == "jtag_scan" then Requests.JtagScanOp
    else if name == "tms_walk" then Requests.TmsWalkOp
    else if name == "sim_time" then Requests.SimTimeOp
    else if name == "log" then Requests.LogOp
    else Requests.UnknownOp
  }

  function OrEmpty(s: Option<string>): string { if s.Some? then s.value else "" }

  /** The request a line stands for. */
  function Understood(line: string): Requests.Request
  {
    var op := OpNamed(OrEmpty(StrValue(RestAfter(line, "op"), OP_BUFFER)));
    Requests.Request(
      IntValue(RestAfter(line, "id"), -1), op, IntValue(RestAfter(line, "addr"), -1),
      IntValue(RestAfter(line, "data"), 0), IntValue(RestAfter(line, "dmiop"), 0), IntValue(RestAfter(line, "ir"), 0),
      IntValue(RestAfter(line, "drlen"), 0), IntValue(RestAfter(line, "pause"), 0),
      if op == Requests.LogOp then OrEmpty(EscValue(RestAfter(line, "text"), TEXT_BUFFER)) else "")
  }

  /** The reading half of handle_request. */
  method ReadRequest(line: string) returns (r: Requests.Request)
    ensures r == Understood(line)
  {
    var id := JsonGetInt(line, "id", -1);
    var name := JsonGetStr(line, "op", OP_BUFFER);
    var addr := JsonGetInt(line, "addr", -1);
    var data := JsonGetInt(line, "data", 0);
    var dmiop := JsonGetInt(line, "dmiop", 0);
    var ir := JsonGetInt(line, "ir", 0);
    var drlen := JsonGetInt(line, "drlen", 0);
    var pause := JsonGetInt(line, "pause", 0);
    var op := OpNamed(OrEmpty(name));
    var text := "";
    if op == Requests.LogOp {
      var t := JsonGetStrEsc(line, "text", TEXT_BUFFER);
      text := OrEmpty(t);
    }
    r := Requests.Request(id, op, addr, data, dmiop, ir, drlen, pause, text);
  }

  /** Of a line without a single quote nothing is understood: every field keeps its default. */
  lemma NothingUnderstood(line: string)
    requires NoQuote(line)
    ensures Understood(line) == Requests.Request(-1, Requests.UnknownOp, -1, 0, 0, 0, 0, 0, "")
  {
    hide RestAfter;
    assert Join([line]) == line;
    forall key: string | NoQuote(key) ensures RestAfter(line, key).None? {
      RestAfterJoined([line], key);
    }
    Unquoted("op", "id", "addr", "data");
    Unquoted("dmiop", "ir", "drlen", "pause");
  }

  lemma Unquoted(a: string, b: string, c: string, d: string)
    requires Word(a) && Word(b) && Word(c) && Word(d)
    ensures NoQuote(a) && NoQuote(b) && NoQuote(c) && NoQuote(d)
  {
  }

  // ---- Number fields ----

  /** `, "key": value` for every field, then the closing brace, cut at the quotes. */
  function FieldSegs(before: string, fields: seq<(string, int)>): (segs: seq<string>)
    ensures |segs| > 0
    decreases |fields|
  {
    if |fields| == 0 then [before + "}"]
    else [before + ", ", fields[0].0] + FieldSegs(": " + Decimal(fields[0].1), fields[1..])
  }

  ghost predicate Words(fields: seq<(string, int)>) { forall j :: 0 <= j < |fields| ==> Word(fields[j].0) }

  /** The first value of the key. */
  function FieldValue(fields: seq<(string, int)>, key: string): Option<int>
  {
    if |fields| == 0 then None
    else if fields[0].0 == key then Some(fields[0].1)
    else FieldValue(fields[1..], key)
  }

  lemma {:induction false} DecimalUnquoted(n: nat)
    ensures NoQuote(DecimalNat(n))
  {
    if n >= 10 {
      DecimalUnquoted(n / 10);
    }
  }

  lemma {:induction false} FieldsUnquoted(before: string, fields: seq<(string, int)>)
    requires NoQuote(before) && Words(fields)
    ensures NoQuotes(FieldSegs(before, fields))
    decreases |fields|
  {
    if |fields| > 0 {
      var v := fields[0].1;
      DecimalUnquoted(if v < 0 then -v else v);
      FieldsUnquoted(": " + Decimal(v), fields[1..]);
      assert NoQuote(fields[0].0);
    }
  }

  lemma FieldsStart(before: string, fields: seq<(string, int)>)
    ensures FieldSegs(before, fields)[0] == before + (if |fields| == 0 then "}" else ", ")
    ensures exists rest: string :: |rest| > 0 && (rest[0] == '}' || rest[0] == ',')
                                   && Join(FieldSegs(before, fields)) == before + rest
  {
    hide DecimalNat;
    var segs := FieldSegs(before, fields);
    if |fields| == 0 {
      assert Join(segs) == before + "}";
    } else {
      var tail := Join(segs[1..]);
      var rest := ", " + [QUOTE] + tail;
      assert Join(segs) == before + rest;
    }
  }

  /** Walking the fields, the scanner stops right before the value of the key. */
  lemma {:induction false} FieldFound(before: string, fields: seq<(string, int)>, key: string)
    requires Words(fields) && Word(key)
    ensures var rest := AfterKey(FieldSegs(before, fields), key);
            && (rest.None? <==> FieldValue(fields, key).None?)
            && (rest.Some? ==> exists more: seq<(string, int)> ::
                  rest.value == FieldSegs(": " + Decimal(FieldValue(fields, key).value), more))
    decreases |fields|
  {
    hide DecimalNat;
    if |fields| > 0 {
      var after := ": " + Decimal(fields[0].1);
      var next := FieldSegs(after, fields[1..]);
      var segs := FieldSegs(before, fields);
      assert segs[2..] == next && segs[1] == fields[0].0;
      if fields[0].0 != key {
        FieldFound(after, fields[1..], key);
        FieldsStart(after, fields[1..]);
        assert next[0][0] == ':';
        assert segs[1..][1] == next[0] && segs[1..][1..] == next;
        assert AfterKey(segs, key) == AfterKey(segs[1..], key);
        SkipHead(segs[1], next, key);
        assert segs[1..] == [segs[1]] + next;
      }
    }
  }

  /** A stretch that starts with a colon or a comma is no key. */
  lemma SkipHead(head: string, segs: seq<string>, key: string)
    requires |segs| > 0 && Word(key) && |segs[0]| > 0 && !('a' <= segs[0][0] <= 'z')
    ensures AfterKey([head] + segs, key) == AfterKey(segs, key)
  {
    assert segs[0] != key;
    assert ([head] + segs)[1..] == segs && ([head] + segs)[1] == segs[0];
    if |segs| == 1 {
      assert AfterKey([head] + segs, key).None?;
    }
  }

  lemma ValueAfter(v: int, more: seq<(string, int)>, missing: int)
    ensures IntValue(Some(Join(FieldSegs(": " + Decimal(v), more))), missing) == Clamp(v)
  {
    hide Join, FieldSegs, DecimalNat;
    FieldsStart(": " + Decimal(v), more);
    var rest: string :| |rest| > 0 && (rest[0] == '}' || rest[0] == ',')
                        && Join(FieldSegs(": " + Decimal(v), more)) == ": " + Decimal(v) + rest;
    NumberRead(v, rest);
  }

  /** The scanner reads the key's value, saturated to 64 bits, or leaves the default when it is absent. */
  lemma FieldRead(before: string, fields: seq<(string, int)>, key: string, missing: int)
    requires Words(fields) && Word(key) && NoQuote(before)
    ensures var rest := AfterKey(FieldSegs(before, fields), key);
            IntValue(if rest.None? then None else Some(Join(rest.value)), missing)
            == if FieldValue(fields, key).None? then missing else Clamp(FieldValue(fields, key).value)
  {
    hide Join, FieldSegs, Decimal, AfterKey, FieldValue;
    FieldFound(before, fields, key);
    var rest := AfterKey(FieldSegs(before, fields), key);
    if rest.Some? {
      var more: seq<(string, int)> :|
        rest.value == FieldSegs(": " + Decimal(FieldValue(fields, key).value), more);
      ValueAfter(FieldValue(fields, key).value, more, missing);
    }
  }

  // ---- Lines without text ----

  const HEAD_OP := ["{", "op", ": "]

  /** `{"op": "<name>", <fields>}` */
  function CommandSegs(name: string, fields: seq<(string, int)>): seq<string>
  {
    HEAD_OP + [name] + FieldSegs("", fields)
  }

  lemma CommandUnquoted(name: string, fields: seq<(string, int)>)
    requires NoQuote(name) && Words(fields)
    ensures NoQuotes(CommandSegs(name, fields))
  {
    FieldsUnquoted("", fields);
  }

  lemma HeadSkipped(name: string, segs: seq<string>, key: string)
    requires Word(key) && key != "op" && key != name
    requires |segs| > 0 && |segs[0]| > 0 && !('a' <= segs[0][0] <= 'z')
    ensures AfterKey(HEAD_OP + [name] + segs, key) == AfterKey(segs, key)
  {
    var pre := HEAD_OP + [name];
    forall j | 1 <= j < 4 ensures pre[j] != key {
      assert pre[2] == ": " && pre[2][0] == ':';
    }
    assert pre[3] == name;
    if |segs| >= 2 {
      PassOver(pre, segs, key);
    } else {
      ShortTail(pre, segs, key);
    }
    SkipHead(name, segs, key);
  }

  lemma {:induction false} ShortTail(pre: seq<string>, segs: seq<string>, key: string)
    requires |pre| > 0 && |segs| == 1 && forall j :: 1 <= j < |pre| ==> pre[j] != key
    ensures AfterKey(pre + segs, key) == AfterKey([pre[|pre| - 1]] + segs, key)
    decreases |pre|
  {
    if |pre| > 1 {
      assert (pre + segs)[1..] == pre[1..] + segs;
      ShortTail(pre[1..], segs, key);
    } else {
      assert pre == [pre[0]];
    }
  }

  /** Every number a command line carries is read back under its own key, and a key it does not
      carry keeps its default. */
  lemma CommandNumberRead(name: string, fields: seq<(string, int)>, key: string, missing: int)
    requires NoQuote(name) && Words(fields) && Word(key) && key != "op" && key != name
    ensures IntValue(RestAfter(Join(CommandSegs(name, fields)), key), missing)
            == if FieldValue(fields, key).None? then missing else Clamp(FieldValue(fields, key).value)
  {
    hide Join, AfterKey, FieldSegs, RestAfter, IntValue;
    CommandUnquoted(name, fields);
    RestAfterJoined(CommandSegs(name, fields), key);
    FieldsStart("", fields);
    HeadSkipped(name, FieldSegs("", fields), key);
    FieldRead("", fields, key, missing);
  }

  lemma {:induction false} QuoteEnds(s: string, rest: string)
    requires NoQuote(s)
    ensures UpToQuote(s + [QUOTE] + rest) == s
  {
    var line := s + [QUOTE] + rest;
    if |s| > 0 {
      QuoteEnds(s[1..], rest);
      assert line[1..] == s[1..] + [QUOTE] + rest;
    }
  }

  lemma HitNext(head: string, key: string, rest: seq<string>)
    requires |rest| > 0
    ensures AfterKey([head, key] + rest, key) == Some(rest)
  {
    var all := [head, key] + rest;
    assert all[2..] == rest;
  }

  lemma OpSplit(name: string, segs: seq<string>)
    ensures HEAD_OP + [name] + segs == ["{", "op"] + ([": ", name] + segs)
  {
  }

  lemma AfterOp(name: string, segs: seq<string>)
    requires |segs| > 0
    ensures AfterKey(HEAD_OP + [name] + segs, "op") == Some([": ", name] + segs)
  {
    hide AfterKey;
    OpSplit(name, segs);
    HitNext("{", "op", [": ", name] + segs);
  }

  lemma StringAfter(name: string, segs: seq<string>)
    requires |segs| > 0
    ensures Join([": ", name] + segs) == ": " + ([QUOTE] + name + [QUOTE] + Join(segs))
  {
    hide Join;
    var all := [": ", name] + segs;
    JoinStep(all);
    assert all[1..] == [name] + segs;
    JoinStep([name] + segs);
    assert ([name] + segs)[1..] == segs;
    Associate(": ", [QUOTE], name + [QUOTE] + Join(segs));
    Associate([QUOTE] + name, [QUOTE], Join(segs));
    Associate([QUOTE], name + [QUOTE], Join(segs));
    Associate([QUOTE], name, [QUOTE]);
  }

  /** A printed name comes back, cut to one less than the buffer. */
  lemma StrRead(name: string, rest: string, cap: nat)
    requires NoQuote(name) && cap > 0
    ensures StrValue(Some(": " + ([QUOTE] + name + [QUOTE] + rest)), cap) ==
            Some(if |name| < cap then name else name[..cap - 1])
  {
    hide UpToQuote, SkipSeparators;
    var body := [QUOTE] + name + [QUOTE] + rest;
    SeparatorsSkipped(body);
    Associate([QUOTE], name, [QUOTE]);
    Associate([QUOTE], name + [QUOTE], rest);
    assert body[1..] == name + [QUOTE] + rest;
    QuoteEnds(name, rest);
  }

  lemma OpLineUnquoted(name: string, segs: seq<string>)
    requires NoQuote(name) && NoQuotes(segs)
    ensures NoQuotes(HEAD_OP + [name] + segs)
  {
  }

  /** The operation name is read back from any line that starts with it. */
  lemma OpRead(name: string, segs: seq<string>)
    requires NoQuote(name) && |name| < OP_BUFFER && |segs| > 0 && NoQuotes(segs)
    ensures StrValue(RestAfter(Join(HEAD_OP + [name] + segs), "op"), OP_BUFFER) == Some(name)
  {
    hide Join, AfterKey, RestAfter, StrValue, NoQuotes;
    OpLineUnquoted(name, segs);
    RestAfterJoined(HEAD_OP + [name] + segs, "op");
    AfterOp(name, segs);
    StringAfter(name, segs);
    StrRead(name, Join(segs), OP_BUFFER);
  }

  // ---- The log line ----

  function LogFields(verbosity: int, id: int): seq<(string, int)> { [("data", verbosity), ("id", id)] }

  function LogMiddle(text: string, fields: seq<(string, int)>): (segs: seq<string>)
    ensures |segs| > 0
  {
    [", ", "text", ": "] + (BodySegs(text) + FieldSegs("", fields))
  }

  function LogSegs(text: string, verbosity: int, id: int): seq<string>
  {
    HEAD_OP + ["log"] + LogMiddle(text, LogFields(verbosity, id))
  }

  /** The line emit_log sends, without its newline. */
  function LogLine(text: string, verbosity: int, id: int): string
  {
    "{\"op\": \"log\", \"text\": \"" + Escaped(text) + "\", \"data\": " + Decimal(verbosity)
    + ", \"id\": " + Decimal(id) + "}"
  }

  lemma FieldsJoined(verbosity: int, id: int)
    ensures Join(FieldSegs("", LogFields(verbosity, id)))
            == ", \"data\": " + Decimal(verbosity) + ", \"id\": " + Decimal(id) + "}"
  {
    hide Decimal, Join, FieldSegs, FieldText;
    FieldTextJoined("", LogFields(verbosity, id));
    TwoKeys("data", verbosity, "id", id);
    LogEnd(Decimal(verbosity), Decimal(id));
  }

  lemma LogEnd(v: string, n: string)
    ensures "" + (", " + [QUOTE] + "data" + [QUOTE] + ": " + v + (", " + [QUOTE] + "id" + [QUOTE] + ": " + n + "}"))
            == ", \"data\": " + v + ", \"id\": " + n + "}"
  {
  }

  lemma TwoThen(a: string, b: string, rest: seq<string>)
    requires |rest| > 0
    ensures Join([a, b] + rest) == a + [QUOTE] + b + [QUOTE] + Join(rest)
  {
    hide Join;
    var all := [a, b] + rest;
    JoinStep(all);
    assert all[1..] == [b] + rest;
    JoinStep([b] + rest);
    assert ([b] + rest)[1..] == rest;
    Associate(a + [QUOTE], b + [QUOTE], Join(rest));
    Associate(a + [QUOTE], b, [QUOTE]);
  }

  lemma LogMiddleJoined(text: string, fields: seq<(string, int)>)
    ensures Join(LogMiddle(text, fields))
            == ", " + [QUOTE] + "text" + [QUOTE] + (": " + [QUOTE] + Escaped(text) + [QUOTE] + Join(FieldSegs("", fields)))
  {
    hide Join, BodySegs, FieldSegs, Escaped;
    var tail := BodySegs(text) + FieldSegs("", fields);
    assert LogMiddle(text, fields) == [", ", "text"] + ([": "] + tail);
    TwoThen(", ", "text", [": "] + tail);
    AfterText(text, fields);
  }

  lemma AfterText(text: string, fields: seq<(string, int)>)
    ensures Join([": "] + (BodySegs(text) + FieldSegs("", fields)))
            == ": " + [QUOTE] + Escaped(text) + [QUOTE] + Join(FieldSegs("", fields))
  {
    hide Join, BodySegs, FieldSegs, Escaped;
    var tail := BodySegs(text) + FieldSegs("", fields);
    JoinStep([": "] + tail);
    assert ([": "] + tail)[1..] == tail;
    JoinAppend(BodySegs(text), FieldSegs("", fields));
    BodyJoined(text);
    Associate(": " + [QUOTE], Escaped(text) + [QUOTE], Join(FieldSegs("", fields)));
    Associate(": " + [QUOTE], Escaped(text), [QUOTE]);
  }

  /** The stretches are those of the printed line. */
  lemma LogLineJoined(text: string, verbosity: int, id: int)
    ensures Join(LogSegs(text, verbosity, id)) == LogLine(text, verbosity, id)
  {
    hide Join, LogMiddle, FieldSegs, Escaped, Decimal;
    var middle := LogMiddle(text, LogFields(verbosity, id));
    OpSplit("log", middle);
    TwoThen("{", "op", [": ", "log"] + middle);
    TwoThen(": ", "log", middle);
    LogMiddleJoined(text, LogFields(verbosity, id));
    FieldsJoined(verbosity, id);
    LogPieces(Escaped(text), Decimal(verbosity), Decimal(id));
  }

  lemma LogPieces(e: string, v: string, n: string)
    ensures "{" + [QUOTE] + "op" + [QUOTE] + (": " + [QUOTE] + "log" + [QUOTE] + (", " + [QUOTE] + "text" + [QUOTE]
              + (": " + [QUOTE] + e + [QUOTE] + (", \"data\": " + v + ", \"id\": " + n + "}"))))
            == "{\"op\": \"log\", \"text\": \"" + e + "\", \"data\": " + v + ", \"id\": " + n + "}"
  {
  }

  lemma LogUnquoted(text: string, verbosity: int, id: int)
    ensures NoQuotes(LogMiddle(text, LogFields(verbosity, id)))
    ensures NoQuotes(LogSegs(text, verbosity, id))
  {
    BodyUnquoted(text);
    FieldsUnquoted("", LogFields(verbosity, id));
  }

  /** The text is what the scanner takes for the key: it is the key, or ends in a quote and the key. */
  predicate Fakes(text: string, key: string) { AfterLastQuote(text) == key }

  lemma {:induction false} FakesExactly(text: string, key: string)
    requires QUOTE !in key
    ensures Fakes(text, key) <==>
            text == key || (|text| > |key| && text[|text| - |key| - 1..] == [QUOTE] + key)
  {
    if |text| > 0 {
      FakesExactly(text[1..], key);
      WholeOrTail(text, key);
    }
  }

  lemma WholeOrTail(text: string, key: string)
    requires |text| > 0 && QUOTE !in key
    requires Fakes(text[1..], key) <==>
             text[1..] == key || (|text| - 1 > |key| && text[1..][|text| - 1 - |key| - 1..] == [QUOTE] + key)
    ensures Fakes(text, key) <==>
            text == key || (|text| > |key| && text[|text| - |key| - 1..] == [QUOTE] + key)
  {
    var t := text[1..];
    assert forall c :: c in t ==> c in text;
    if |text| - 1 > |key| {
      assert t[|t| - |key| - 1..] == text[|text| - |key| - 1..];
    }
    if |text| == |key| + 1 {
      assert text[0..] == text && text == [text[0]] + t;
    }
    if QUOTE !in t {
      if |text| > |key| {
        assert (text[|text| - |key| - 1..])[0] == text[|text| - |key| - 1];
        assert |text| > |key| + 1 ==> text[|text| - |key| - 1] == t[|text| - |key| - 2] && t[|text| - |key| - 2] in t;
      }
    }
  }

  /** Past the text, the scanner reaches the fields, unless the text fakes the key. */
  lemma AfterLogKey(text: string, fields: seq<(string, int)>, key: string)
    requires Word(key) && key != "op" && key != "log" && key != "text" && |fields| > 0
    ensures AfterKey(HEAD_OP + ["log"] + LogMiddle(text, fields), key) ==
            if Fakes(text, key) then Some(FieldSegs("", fields)) else AfterKey(FieldSegs("", fields), key)
  {
    hide AfterKey, FieldSegs, BodySegs, AfterLastQuote, Escaped;
    var body, tail := BodySegs(text), FieldSegs("", fields);
    var last := body[|body| - 1];
    HeadSkipped("log", LogMiddle(text, fields), key);
    var pre := [", ", "text", ": "] + body[..|body| - 1];
    assert LogMiddle(text, fields) == pre + ([last] + tail);
    forall j | 1 <= j < |pre| ensures pre[j] != key {
      if j >= 3 {
        BodyStretches(text, j - 3);
        assert pre[j] == body[j - 3];
      } else {
        assert pre[2][0] == ':';
      }
    }
    PassOver(pre, [last] + tail, key);
    var x := pre[|pre| - 1];
    assert [x] + ([last] + tail) == [x, last] + tail;
    LastStretch(text);
    EscapedWord(AfterLastQuote(text), key);
    if last == key {
      HitNext(x, key, tail);
    } else {
      NotNext(x, last, tail, key);
      FieldsStart("", fields);
      SkipHead(last, tail, key);
    }
  }

  lemma NotNext(x: string, y: string, rest: seq<string>, key: string)
    requires y != key && |rest| > 0
    ensures AfterKey([x, y] + rest, key) == AfterKey([y] + rest, key)
  {
    assert ([x, y] + rest)[1..] == [y] + rest;
  }

  /** What a faked key is followed by: no number, so the value read is 0. */
  lemma FakedValue(fields: seq<(string, int)>, missing: int)
    requires |fields| > 0
    ensures IntValue(Some(Join(FieldSegs("", fields))), missing) == 0
  {
    hide Join;
    var segs := FieldSegs("", fields);
    JoinStep(segs);
    assert segs[0] == ", ";
    var s := Join(segs);
    assert s[0] == ',';
    assert SkipSeparators(s) == s && SkipSpaces(s) == s;
  }

  lemma LogNumber(text: string, verbosity: int, id: int, key: string, missing: int)
    requires key == "id" || key == "data"
    ensures IntValue(RestAfter(LogLine(text, verbosity, id), key), missing) ==
            if Fakes(text, key) then 0 else if key == "id" then Clamp(id) else Clamp(verbosity)
  {
    hide Join, AfterKey, FieldSegs, RestAfter, IntValue, LogMiddle, NoQuotes, Fakes;
    var fields := LogFields(verbosity, id);
    LogLineJoined(text, verbosity, id);
    LogUnquoted(text, verbosity, id);
    RestAfterJoined(LogSegs(text, verbosity, id), key);
    assert "id"[0] == 'i' && "data"[0] == 'd';
    AfterLogKey(text, fields, key);
    FakedValue(fields, missing);
    FieldRead("", fields, key, missing);
    LogFieldValues(verbosity, id);
  }

  lemma LogFieldValues(verbosity: int, id: int)
    ensures FieldValue(LogFields(verbosity, id), "data") == Some(verbosity)
    ensures FieldValue(LogFields(verbosity, id), "id") == Some(id)
    ensures Words(LogFields(verbosity, id)) && Word("id") && Word("data")
  {
    assert LogFields(verbosity, id)[1..] == [("id", id)];
    assert "data"[0] != "id"[0];
  }

  /** The text comes back with every character as the scanner makes it, whatever quotes it holds. */
  lemma LogText(text: string, verbosity: int, id: int)
    requires |LogLine(text, verbosity, id)| <= LINE_LIMIT
    ensures EscValue(RestAfter(LogLine(text, verbosity, id), "text"), TEXT_BUFFER) == Some(RecoveredText(text))
  {
    hide Join, AfterKey, FieldSegs, BodySegs, RestAfter, EscValue, NoQuotes, Escaped, RecoveredText;
    var fields := LogFields(verbosity, id);
    var body, tail := BodySegs(text), FieldSegs("", fields);
    LogLineJoined(text, verbosity, id);
    LogUnquoted(text, verbosity, id);
    RestAfterJoined(LogSegs(text, verbosity, id), "text");
    HeadSkipped("log", LogMiddle(text, fields), "text");
    assert LogMiddle(text, fields) == [", ", "text"] + ([": "] + (body + tail));
    HitNext(", ", "text", [": "] + (body + tail));
    AfterText(text, fields);
    TextAfter(text, Join(tail), TEXT_BUFFER);
    RecoveredLength(text);
  }

  /** A printed text comes back unescaped, cut to one less than the buffer. */
  lemma TextAfter(text: string, rest: string, cap: nat)
    requires cap > 0
    ensures EscValue(Some(": " + [QUOTE] + Escaped(text) + [QUOTE] + rest), cap) ==
            Some(if |RecoveredText(text)| < cap then RecoveredText(text) else RecoveredText(text)[..cap - 1])
  {
    hide Escaped, RecoveredText, Unescaped, SkipSeparators;
    var body := [QUOTE] + (Escaped(text) + [QUOTE] + rest);
    Associate(": ", [QUOTE], Escaped(text));
    Associate(": ", [QUOTE] + Escaped(text), [QUOTE]);
    Associate(": ", [QUOTE] + Escaped(text) + [QUOTE], rest);
    Associate([QUOTE], Escaped(text), [QUOTE]);
    Associate([QUOTE], Escaped(text) + [QUOTE], rest);
    SeparatorsSkipped(body);
    assert body[1..] == Escaped(text) + [QUOTE] + rest;
    TextRead(text, rest);
    RecoveredLength(text);
  }

  lemma LogOp(text: string, verbosity: int, id: int)
    ensures StrValue(RestAfter(LogLine(text, verbosity, id), "op"), OP_BUFFER) == Some("log")
  {
    hide Join, RestAfter, StrValue, LogMiddle, NoQuotes;
    LogLineJoined(text, verbosity, id);
    LogUnquoted(text, verbosity, id);
    OpRead("log", LogMiddle(text, LogFields(verbosity, id)));
  }

  /** Printing and scanning a log line are inverse, exactly: the operation always comes back; the text
      if and only if it is printable ASCII, tabs and newlines; the identifier and the verbosity unless
      the text fakes their key, and then they come back as 0. */
  lemma LogLineUnderstood(text: string, verbosity: int, id: int)
    requires |LogLine(text, verbosity, id)| <= LINE_LIMIT
    ensures var r := Understood(LogLine(text, verbosity, id));
            && r.op == Requests.LogOp
            && r.text == RecoveredText(text) && (r.text == text <==> AllSafe(text))
            && r.id == (if Fakes(text, "id") then 0 else Clamp(id))
            && r.data == (if Fakes(text, "data") then 0 else Clamp(verbosity))
  {
    hide LogLine, RestAfter, StrValue, EscValue, IntValue, RecoveredText, Fakes;
    LogOp(text, verbosity, id);
    LogText(text, verbosity, id);
    LogNumber(text, verbosity, id, "id", -1);
    LogNumber(text, verbosity, id, "data", 0);
    TextSurvives(text);
    assert "log" != "shutdown" && "log" != "read";
  }

  /** The client takes the reply to a log line for its own exactly if the text does not fake the identifier. */
  lemma LogIdentified(text: string, verbosity: int, id: int)
    requires |LogLine(text, verbosity, id)| <= LINE_LIMIT && 0 < id <= LLONG_MAX
    ensures Understood(LogLine(text, verbosity, id)).id == id <==>
            !(text == "id" || (|text| > 2 && text[|text| - 3..] == [QUOTE] + "id"))
  {
    hide LogLine, Understood, Fakes;
    LogLineUnderstood(text, verbosity, id);
    FakesExactly(text, "id");
  }

  // ---- The command lines ----

  predicate IsCommand(op: Requests.OpName) { op != Requests.LogOp && op != Requests.ShutdownOp && op != Requests.UnknownOp }

  function NameOf(op: Requests.OpName): string
    requires IsCommand(op)
  {
    match op
    case ReadOp => "read"
    case WriteOp => "write"
    case ResetOp => "reset"
    case DtmcsOp => "dtmcs"
    case DmiScanOp => "dmi_scan"
    case JtagScanOp => "jtag_scan"
    case TmsWalkOp => "tms_walk"
    case SimTimeOp => "sim_time"
  }

  /** The number fields the client prints for an operation, the identifier last. */
  function PrintedFields(r: Requests.Request): seq<(string, int)>
    requires IsCommand(r.op)
  {
    match r.op
    case ReadOp => [("addr", r.addr), ("id", r.id)]
    case WriteOp => [("addr", r.addr), ("data", r.data), ("id", r.id)]
    case ResetOp => [("id", r.id)]
    case DtmcsOp => [("data", r.data), ("id", r.id)]
    case DmiScanOp => [("dmiop", r.dmiop), ("addr", r.addr), ("data", r.data), ("id", r.id)]
    case JtagScanOp => [("ir", r.ir), ("drlen", r.drlen), ("pause", r.pause), ("data", r.data), ("id", r.id)]
    case TmsWalkOp => [("addr", r.addr), ("data", r.data), ("id", r.id)]
    case SimTimeOp => [("id", r.id)]
  }

  /** `, "key": value` and what follows. */
  function Keyed(key: string, value: int, rest: string): string
  {
    ", " + [QUOTE] + key + [QUOTE] + ": " + Decimal(value) + rest
  }

  function FieldText(fields: seq<(string, int)>): string
  {
    if |fields| == 0 then "}" else Keyed(fields[0].0, fields[0].1, FieldText(fields[1..]))
  }

  /** The line _transact sends for a command, without its newline. */
  function CommandLine(r: Requests.Request): string
    requires IsCommand(r.op)
  {
    "{\"op\": \"" + NameOf(r.op) + "\"" + FieldText(PrintedFields(r))
  }

  lemma {:induction false} FieldTextJoined(before: string, fields: seq<(string, int)>)
    ensures Join(FieldSegs(before, fields)) == before + FieldText(fields)
    decreases |fields|
  {
    hide Decimal, Join;
    if |fields| == 0 {
      JoinStep(FieldSegs(before, fields));
    } else {
      var value := ": " + Decimal(fields[0].1);
      FieldTextJoined(value, fields[1..]);
      TwoThen(before + ", ", fields[0].0, FieldSegs(value, fields[1..]));
      Regroup(before, fields[0].0, Decimal(fields[0].1), FieldText(fields[1..]));
    }
  }

  lemma Regroup(before: string, key: string, value: string, rest: string)
    ensures before + ", " + [QUOTE] + key + [QUOTE] + (": " + value + rest)
            == before + (", " + [QUOTE] + key + [QUOTE] + ": " + value + rest)
  {
  }

  lemma CommandStart(op: Requests.OpName)
    requires IsCommand(op)
    ensures "{\"op\": \"" + NameOf(op) + "\"" ==
            match op
            case ReadOp => "{\"op\": \"read\""
            case WriteOp => "{\"op\": \"write\""
            case ResetOp => "{\"op\": \"reset\""
            case DtmcsOp => "{\"op\": \"dtmcs\""
            case DmiScanOp => "{\"op\": \"dmi_scan\""
            case JtagScanOp => "{\"op\": \"jtag_scan\""
            case TmsWalkOp => "{\"op\": \"tms_walk\""
            case SimTimeOp => "{\"op\": \"sim_time\""
  {
  }

  /** The lines as they go over the wire. */
  lemma CommandTexts(r: Requests.Request)
    requires IsCommand(r.op)
    ensures var last := Keyed("id", r.id, "}");
            CommandLine(r) ==
            match r.op
            case ReadOp => "{\"op\": \"read\"" + Keyed("addr", r.addr, last)
            case WriteOp => "{\"op\": \"write\"" + Keyed("addr", r.addr, Keyed("data", r.data, last))
            case ResetOp => "{\"op\": \"reset\"" + last
            case DtmcsOp => "{\"op\": \"dtmcs\"" + Keyed("data", r.data, last)
            case DmiScanOp =>
              "{\"op\": \"dmi_scan\"" + Keyed("dmiop", r.dmiop, Keyed("addr", r.addr, Keyed("data", r.data, last)))
            case JtagScanOp =>
              "{\"op\": \"jtag_scan\""
              + Keyed("ir", r.ir, Keyed("drlen", r.drlen, Keyed("pause", r.pause, Keyed("data", r.data, last))))
            case TmsWalkOp => "{\"op\": \"tms_walk\"" + Keyed("addr", r.addr, Keyed("data", r.data, last))
            case SimTimeOp => "{\"op\": \"sim_time\"" + last
  {
    hide Decimal, FieldText, Keyed, NameOf;
    CommandStart(r.op);
    match r.op
    case ReadOp => TwoKeys("addr", r.addr, "id", r.id);
    case WriteOp => ThreeKeys("addr", r.addr, "data", r.data, "id", r.id);
    case ResetOp => OneKey("id", r.id);
    case DtmcsOp => TwoKeys("data", r.data, "id", r.id);
    case DmiScanOp => FourKeys("dmiop", r.dmiop, "addr", r.addr, "data", r.data, "id", r.id);
    case JtagScanOp => FiveKeys("ir", r.ir, "drlen", r.drlen, "pause", r.pause, "data", r.data, "id", r.id);
    case TmsWalkOp => ThreeKeys("addr", r.addr, "data", r.data, "id", r.id);
    case SimTimeOp => OneKey("id", r.id);
  }

  lemma OneKey(a: string, u: int)
    ensures FieldText([(a, u)]) == Keyed(a, u, "}")
  {
    hide Keyed;
  }

  lemma TwoKeys(a: string, u: int, b: string, v: int)
    ensures FieldText([(a, u), (b, v)]) == Keyed(a, u, Keyed(b, v, "}"))
  {
    hide Keyed;
    OneKey(b, v);
    assert [(a, u), (b, v)][1..] == [(b, v)];
  }

  lemma ThreeKeys(a: string, u: int, b: string, v: int, c: string, w: int)
    ensures FieldText([(a, u), (b, v), (c, w)]) == Keyed(a, u, Keyed(b, v, Keyed(c, w, "}")))
  {
    hide Keyed;
    TwoKeys(b, v, c, w);
    assert [(a, u), (b, v), (c, w)][1..] == [(b, v), (c, w)];
  }

  lemma FourKeys(a: string, u: int, b: string, v: int, c: string, w: int, d: string, x: int)
    ensures FieldText([(a, u), (b, v), (c, w), (d, x)]) == Keyed(a, u, Keyed(b, v, Keyed(c, w, Keyed(d, x, "}"))))
  {
    hide Keyed;
    ThreeKeys(b, v, c, w, d, x);
    assert [(a, u), (b, v), (c, w), (d, x)][1..] == [(b, v), (c, w), (d, x)];
  }

  lemma FiveKeys(a: string, u: int, b: string, v: int, c: string, w: int, d: string, x: int, e: string, y: int)
    ensures FieldText([(a, u), (b, v), (c, w), (d, x), (e, y)]) == Keyed(a, u, Keyed(b, v, Keyed(c, w, Keyed(d, x, Keyed(e, y, "}")))))
  {
    hide Keyed;
    FourKeys(b, v, c, w, d, x, e, y);
    assert [(a, u), (b, v), (c, w), (d, x), (e, y)][1..] == [(b, v), (c, w), (d, x), (e, y)];
  }

  lemma CommandJoined(r: Requests.Request)
    requires IsCommand(r.op)
    ensures Join(CommandSegs(NameOf(r.op), PrintedFields(r))) == CommandLine(r)
  {
    hide Join, NameOf, PrintedFields, FieldText, FieldSegs;
    var name, fields := NameOf(r.op), PrintedFields(r);
    var tail := FieldSegs("", fields);
    FieldTextJoined("", fields);
    assert "" + FieldText(fields) == FieldText(fields);
    OpSplit(name, tail);
    TwoThen("{", "op", [": ", name] + tail);
    TwoThen(": ", name, tail);
    CommandPieces(name, FieldText(fields));
  }

  lemma CommandPieces(name: string, rest: string)
    ensures "{" + [QUOTE] + "op" + [QUOTE] + (": " + [QUOTE] + name + [QUOTE] + rest)
            == "{\"op\": \"" + name + "\"" + rest
  {
  }

  lemma NamesAreNoKeys(op: Requests.OpName, key: string)
    requires IsCommand(op)
    requires key in {"id", "addr", "data", "dmiop", "ir", "drlen", "pause"}
    ensures NoQuote(NameOf(op)) && |NameOf(op)| < OP_BUFFER && OpNamed(NameOf(op)) == op
    ensures key != NameOf(op) && key != "op" && Word(key)
  {
    var name := NameOf(op);
    assert name[0] == 'r' || name[0] == 'w' || name[0] == 't' || name[0] == 's' || name[0] == 'j'
           || (name[0] == 'd' && |name| > 4 && (name[1] == 't' || name[1] == 'm'));
    match op {
      case ReadOp =>
      case WriteOp =>
      case ResetOp =>
      case DtmcsOp =>
      case DmiScanOp =>
      case JtagScanOp =>
      case TmsWalkOp =>
      case SimTimeOp =>
    }
  }

  lemma FieldsAreWords(r: Requests.Request)
    requires IsCommand(r.op)
    ensures Words(PrintedFields(r))
  {
    NamesAreNoKeys(r.op, "id");
    NamesAreNoKeys(r.op, "addr");
    NamesAreNoKeys(r.op, "data");
    NamesAreNoKeys(r.op, "dmiop");
    NamesAreNoKeys(r.op, "ir");
    NamesAreNoKeys(r.op, "drlen");
    NamesAreNoKeys(r.op, "pause");
    hide Word;
  }

  lemma CommandNumber(r: Requests.Request, key: string, missing: int)
    requires IsCommand(r.op) && key in {"id", "addr", "data", "dmiop", "ir", "drlen", "pause"}
    ensures IntValue(RestAfter(CommandLine(r), key), missing) ==
            (var v := FieldValue(PrintedFields(r), key); if v.None? then missing else Clamp(v.value))
  {
    hide CommandLine, RestAfter, IntValue, NameOf, PrintedFields, FieldValue;
    NamesAreNoKeys(r.op, key);
    FieldsAreWords(r);
    CommandJoined(r);
    CommandNumberRead(NameOf(r.op), PrintedFields(r), key, missing);
  }

  lemma CommandOp(r: Requests.Request)
    requires IsCommand(r.op)
    ensures OpNamed(OrEmpty(StrValue(RestAfter(CommandLine(r), "op"), OP_BUFFER))) == r.op
  {
    hide CommandLine, RestAfter, StrValue, NameOf, PrintedFields, OpNamed;
    NamesAreNoKeys(r.op, "id");
    FieldsAreWords(r);
    CommandJoined(r);
    FieldsUnquoted("", PrintedFields(r));
    OpRead(NameOf(r.op), FieldSegs("", PrintedFields(r)));
  }

  lemma KeysDiffer()
    ensures "id" != "addr" && "id" != "data" && "id" != "dmiop" && "id" != "ir" && "id" != "drlen" && "id" != "pause"
    ensures "addr" != "data" && "addr" != "dmiop" && "addr" != "ir" && "addr" != "drlen" && "addr" != "pause"
    ensures "data" != "dmiop" && "data" != "ir" && "data" != "drlen" && "data" != "pause"
    ensures "dmiop" != "ir" && "dmiop" != "drlen" && "dmiop" != "pause"
    ensures "ir" != "drlen" && "ir" != "pause" && "drlen" != "pause"
  {
    assert "id"[1] != "ir"[1] && "addr"[0] != "data"[0];
    assert "dmiop"[1] != "drlen"[1] && "dmiop"[0] != "pause"[0] && "drlen"[0] != "pause"[0];
  }

  lemma {:induction false} FieldAt(fields: seq<(string, int)>, j: nat)
    requires j < |fields| && forall i :: 0 <= i < j ==> fields[i].0 != fields[j].0
    ensures FieldValue(fields, fields[j].0) == Some(fields[j].1)
  {
    if j > 0 {
      assert forall i :: 0 <= i < j - 1 ==> fields[1..][i].0 == fields[i + 1].0;
      FieldAt(fields[1..], j - 1);
    }
  }

  lemma EveryFieldRead(r: Requests.Request, j: nat)
    requires IsCommand(r.op) && j < |PrintedFields(r)|
    ensures FieldValue(PrintedFields(r), PrintedFields(r)[j].0) == Some(PrintedFields(r)[j].1)
  {
    KeysDiffer();
    FieldAt(PrintedFields(r), j);
  }

  predicate Fits(v: int) { -LLONG_MAX - 1 <= v <= LLONG_MAX }

  predicate AllFit(r: Requests.Request)
  {
    Fits(r.id) && Fits(r.addr) && Fits(r.data) && Fits(r.dmiop) && Fits(r.ir) && Fits(r.drlen) && Fits(r.pause)
  }

  lemma CommandField(r: Requests.Request, j: nat, missing: int)
    requires IsCommand(r.op) && AllFit(r) && j < |PrintedFields(r)|
    requires PrintedFields(r)[j].0 in {"id", "addr", "data", "dmiop", "ir", "drlen", "pause"} && Fits(PrintedFields(r)[j].1)
    ensures IntValue(RestAfter(CommandLine(r), PrintedFields(r)[j].0), missing) == PrintedFields(r)[j].1
  {
    hide CommandLine, RestAfter, IntValue, PrintedFields, FieldValue;
    EveryFieldRead(r, j);
    CommandNumber(r, PrintedFields(r)[j].0, missing);
  }

  /** The operations that print an address, and those that print a data word. */
  predicate SendsAddress(op: Requests.OpName)
  {
    op == Requests.ReadOp || op == Requests.WriteOp || op == Requests.DmiScanOp || op == Requests.TmsWalkOp
  }

  predicate SendsData(op: Requests.OpName)
  {
    op == Requests.WriteOp || op == Requests.DtmcsOp || op == Requests.DmiScanOp || op == Requests.JtagScanOp
    || op == Requests.TmsWalkOp
  }

  /** `u` has the numbers of `r` that its operation prints. */
  predicate SameNumbers(r: Requests.Request, u: Requests.Request)
  {
    && (SendsAddress(r.op) ==> u.addr == r.addr)
    && (SendsData(r.op) ==> u.data == r.data)
    && (r.op == Requests.DmiScanOp ==> u.dmiop == r.dmiop)
    && (r.op == Requests.JtagScanOp ==> u.ir == r.ir && u.drlen == r.drlen && u.pause == r.pause)
  }

  /** Every command the client prints is read as the request it was: the operation, the identifier and
      every number it prints, so its packed address and data as Requests.Handoff makes them. */
  lemma CommandUnderstood(r: Requests.Request)
    requires IsCommand(r.op) && AllFit(r)
    ensures var u := Understood(CommandLine(r));
            u.op == r.op && u.id == r.id && SameNumbers(r, u) && Requests.Handoff(u) == Requests.Handoff(r)
  {
    hide CommandLine, RestAfter, IntValue, StrValue, EscValue, OpNamed;
    CommandOp(r);
    var n := |PrintedFields(r)|;
    CommandField(r, n - 1, -1);
    match r.op {
      case ReadOp => CommandField(r, 0, -1);
      case WriteOp => CommandField(r, 0, -1); CommandField(r, 1, 0);
      case ResetOp =>
      case DtmcsOp => CommandField(r, 0, 0);
      case DmiScanOp => CommandField(r, 0, 0); CommandField(r, 1, -1); CommandField(r, 2, 0);
      case JtagScanOp => CommandField(r, 0, 0); CommandField(r, 1, 0); CommandField(r, 2, 0); CommandField(r, 3, 0);
      case TmsWalkOp => CommandField(r, 0, -1); CommandField(r, 1, 0);
      case SimTimeOp =>
    }
  }

  // ---- The shutdown line, the only one that prints its identifier first ----

  /** The line _send_shutdown sends, without its newline. */
  function ShutdownLine(id: int, failed: int): string
  {
    "{\"id\": " + Decimal(id) + ", \"op\": \"shutdown\", \"data\": " + Decimal(failed) + "}"
  }

  /** What follows the value of the identifier. */
  function ShutdownTail(failed: int): seq<string> { ["shutdown", ", ", "data", ": " + Decimal(failed) + "}"] }

  function ShutdownSegs(id: int, failed: int): (segs: seq<string>)
    ensures |segs| > 0
  {
    ["{", "id", ": " + Decimal(id) + ", ", "op", ": "] + ShutdownTail(failed)
  }

  lemma ShutdownTailJoined(failed: int)
    ensures Join([": "] + ShutdownTail(failed)) == ": \"shutdown\", \"data\": " + Decimal(failed) + "}"
  {
    hide Join, Decimal;
    var last := [": " + Decimal(failed) + "}"];
    JoinStep(last);
    TwoThen(", ", "data", last);
    TwoThen(": ", "shutdown", [", ", "data"] + last);
    assert [": "] + ShutdownTail(failed) == [": ", "shutdown"] + ([", ", "data"] + last);
  }

  lemma ShutdownJoined(id: int, failed: int)
    ensures Join(ShutdownSegs(id, failed)) == ShutdownLine(id, failed)
  {
    hide Join, Decimal, ShutdownTail;
    var tail := [": "] + ShutdownTail(failed);
    ShutdownTailJoined(failed);
    TwoThen(": " + Decimal(id) + ", ", "op", tail);
    TwoThen("{", "id", [": " + Decimal(id) + ", ", "op"] + tail);
    assert ShutdownSegs(id, failed) == ["{", "id"] + ([": " + Decimal(id) + ", ", "op"] + tail);
    ShutdownPieces(Decimal(id), Decimal(failed));
  }

  lemma ShutdownPieces(n: string, v: string)
    ensures "{" + [QUOTE] + "id" + [QUOTE] + (": " + n + ", " + [QUOTE] + "op" + [QUOTE]
              + (": \"shutdown\", \"data\": " + v + "}"))
            == "{\"id\": " + n + ", \"op\": \"shutdown\", \"data\": " + v + "}"
  {
  }

  lemma ShutdownUnquoted(id: int, failed: int)
    ensures NoQuotes(ShutdownSegs(id, failed))
  {
    hide DecimalNat;
    DecimalUnquoted(if id < 0 then -id else id);
    DecimalUnquoted(if failed < 0 then -failed else failed);
    Unquoted3("{", "id", ": " + Decimal(id) + ", ");
    Unquoted3("op", ": ", "shutdown");
    Unquoted3(", ", "data", ": " + Decimal(failed) + "}");
    assert ShutdownSegs(id, failed) == ["{", "id", ": " + Decimal(id) + ", "] + ["op", ": ", "shutdown"]
                                       + [", ", "data", ": " + Decimal(failed) + "}"];
  }

  lemma Unquoted3(a: string, b: string, c: string)
    requires NoQuote(a) && NoQuote(b) && NoQuote(c)
    ensures NoQuotes([a, b, c])
  {
  }

  lemma ShutdownAfter(id: int, failed: int)
    ensures AfterKey(ShutdownSegs(id, failed), "id") == Some([": " + Decimal(id) + ", ", "op", ": "] + ShutdownTail(failed))
    ensures AfterKey(ShutdownSegs(id, failed), "op") == Some([": "] + ShutdownTail(failed))
    ensures AfterKey(ShutdownSegs(id, failed), "data") == Some([": " + Decimal(failed) + "}"])
  {
    hide AfterKey, Decimal;
    var s := ShutdownSegs(id, failed);
    var n, d := ": " + Decimal(id) + ", ", ": " + Decimal(failed) + "}";
    assert "data" != "shutdown" && "data"[0] != n[0];
    HitNext("{", "id", [n, "op", ": "] + ShutdownTail(failed));
    assert s == ["{", "id"] + ([n, "op", ": "] + ShutdownTail(failed));
    assert s == ["{", "id", n] + (["op", ": "] + ShutdownTail(failed));
    PassOver(["{", "id", n], ["op", ": "] + ShutdownTail(failed), "op");
    HitNext(n, "op", [": "] + ShutdownTail(failed));
    assert [n] + (["op", ": "] + ShutdownTail(failed)) == [n, "op"] + ([": "] + ShutdownTail(failed));
    var pre := ["{", "id", n, "op", ": ", "shutdown", ", "];
    assert s == pre + ["data", d];
    PassOver(pre, ["data", d], "data");
    HitNext(", ", "data", [d]);
    assert [", "] + ["data", d] == [", ", "data"] + [d];
  }

  lemma NumberNext(v: int, before: string, after: seq<string>, missing: int)
    requires before == ": " + Decimal(v) + ", "
    ensures IntValue(Some(Join([before] + after)), missing) == Clamp(v)
  {
    hide Join, Decimal, IntValue;
    var rest := ", " + (if |after| == 0 then "" else [QUOTE] + Join(after));
    JoinStep([before] + after);
    assert ([before] + after)[1..] == after;
    assert Join([before] + after) == ": " + Decimal(v) + rest;
    NumberRead(v, rest);
    ValuePresent(": " + Decimal(v) + rest, missing);
  }

  lemma ValuePresent(s: string, missing: int)
    ensures IntValue(Some(s), missing) == IntValue(Some(s), 0)
  {
  }

  /** The shutdown line reaches the simulator with the number of failed steps. */
  lemma ShutdownUnderstood(id: int, failed: int)
    requires Fits(id) && Fits(failed)
    ensures var u := Understood(ShutdownLine(id, failed));
            u.op == Requests.ShutdownOp && u.id == id && u.data == failed
  {
    hide Join, AfterKey, RestAfter, IntValue, StrValue, EscValue, Decimal, NoQuotes, ShutdownLine, ShutdownSegs;
    ShutdownJoined(id, failed);
    ShutdownUnquoted(id, failed);
    ShutdownAfter(id, failed);
    RestAfterJoined(ShutdownSegs(id, failed), "id");
    RestAfterJoined(ShutdownSegs(id, failed), "op");
    RestAfterJoined(ShutdownSegs(id, failed), "data");
    var n := ": " + Decimal(id) + ", ";
    assert [n, "op", ": "] + ShutdownTail(failed) == [n] + (["op", ": "] + ShutdownTail(failed));
    NumberNext(id, n, ["op", ": "] + ShutdownTail(failed), -1);
    ShutdownName(failed);
    JoinStep([": " + Decimal(failed) + "}"]);
    NumberRead(failed, "}");
  }

  lemma ShutdownName(failed: int)
    ensures StrValue(Some(Join([": "] + ShutdownTail(failed))), OP_BUFFER) == Some("shutdown")
  {
    hide Join, StrValue;
    var rest := [", ", "data", ": " + Decimal(failed) + "}"];
    assert [": "] + ShutdownTail(failed) == [": ", "shutdown"] + rest;
    StringAfter("shutdown", rest);
    StrRead("shutdown", Join(rest), OP_BUFFER);
  }

  // ---- Any line ----

  /** The line a request is sent as, without its newline. */
  function Printed(r: Requests.Request): string
    requires r.op != Requests.UnknownOp
  {
    if r.op == Requests.LogOp then LogLine(r.text, r.data, r.id)
    else if r.op == Requests.ShutdownOp then ShutdownLine(r.id, r.data)
    else CommandLine(r)
  }

  /** A log whose text is taken for the key. */
  predicate FakesKey(r: Requests.Request, key: string) { r.op == Requests.LogOp && Fakes(r.text, key) }

  /** What handle_request makes of any line the client can print within the receive buffer: the very
      request, but that a log text that fakes the identifier or the verbosity turns it into 0. */
  lemma LineUnderstood(r: Requests.Request)
    requires r.op != Requests.UnknownOp && AllFit(r) && |Printed(r)| <= LINE_LIMIT
    ensures var u := Understood(Printed(r));
            && u.op == r.op
            && u.id == (if FakesKey(r, "id") then 0 else r.id)
            && SameNumbers(r, u)
            && (r.op == Requests.ShutdownOp ==> u.data == r.data)
            && (r.op == Requests.LogOp ==> u.data == (if FakesKey(r, "data") then 0 else r.data))
            && Requests.Handoff(u) == Requests.Handoff(if FakesKey(r, "data") then r.(data := 0) else r)
            && (r.op == Requests.LogOp ==> u.text == RecoveredText(r.text))
  {
    hide LogLine, ShutdownLine, CommandLine, Understood, Fakes;
    if r.op == Requests.LogOp {
      LogLineUnderstood(r.text, r.data, r.id);
    } else if r.op == Requests.ShutdownOp {
      ShutdownUnderstood(r.id, r.data);
    } else {
      CommandUnderstood(r);
    }
  }
}
