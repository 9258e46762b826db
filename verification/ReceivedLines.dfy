// From the bytes of the socket to the lines handle_request is called with: fgets
// cuts a long line in pieces, and each piece is taken for a request of its own
// (src/pydebug/c_bridge/uvm_bridge.c).

module ReceivedLines {
  import opened Bits
  import opened Registers
  import opened Json
  import opened LineProtocol
  import opened BridgeLines
  import Requests

  // ---- fgets ----

  const NEWLINE := '\n'

  predicate NoNewline(s: string) { forall i :: 0 <= i < |s| ==> s[i] != NEWLINE }

  /** The characters of one fgets call: up to and including a newline, `room` at most. */
  function FgetsLength(s: string, room: nat): (n: nat)
    ensures n <= |s| && n <= room && (n == 0 <==> |s| == 0 || room == 0)
  {
    if |s| == 0 || room == 0 then 0
    else if s[0] == NEWLINE then 1
    else 1 + FgetsLength(s[1..], room - 1)
  }

  function Stripped(s: string): string
  {
    if |s| > 0 && s[|s| - 1] == NEWLINE then s[..|s| - 1] else s
  }

  /** What the loop of server_thread hands to handle_request, call by call. */
  function ReadAll(s: string): seq<string>
    decreases |s|
  {
    if |s| == 0 then []
    else
      var n := FgetsLength(s, LINE_LIMIT + 1);
      [Stripped(s[..n])] + ReadAll(s[n..])
  }

  /** The pieces one sent line is received in. */
  function Pieces(line: string): (pieces: seq<string>)
    ensures |pieces| > 0 && (|pieces| == 1 <==> |line| <= LINE_LIMIT)
    decreases |line|
  {
    if |line| <= LINE_LIMIT then [line] else [line[..LINE_LIMIT + 1]] + Pieces(line[LINE_LIMIT + 1..])
  }

  lemma {:induction false} FgetsStops(line: string, rest: string, room: nat)
    requires NoNewline(line)
    ensures FgetsLength(line + [NEWLINE] + rest, room) == if |line| < room then |line| + 1 else room
  {
    var s := line + [NEWLINE] + rest;
    if |line| > 0 && room > 0 {
      FgetsStops(line[1..], rest, room - 1);
      assert s[1..] == line[1..] + [NEWLINE] + rest;
    }
  }

  /** fgets, call after call, reads the pieces of each line in turn. */
  lemma {:induction false} LineRead(line: string, rest: string)
    requires NoNewline(line)
    ensures ReadAll(line + [NEWLINE] + rest) == Pieces(line) + ReadAll(rest)
    decreases |line|
  {
    hide FgetsLength, Stripped, ReadAll;
    var s := line + [NEWLINE] + rest;
    FgetsStops(line, rest, LINE_LIMIT + 1);
    ReadStep(s);
    if |line| <= LINE_LIMIT {
      assert s[..|line| + 1] == line + [NEWLINE] && s[|line| + 1..] == rest;
      StripLine(line);
    } else {
      var head, tail := line[..LINE_LIMIT + 1], line[LINE_LIMIT + 1..];
      LineRead(tail, rest);
      assert s[..LINE_LIMIT + 1] == head && s[LINE_LIMIT + 1..] == tail + [NEWLINE] + rest;
      StripPart(head);
    }
  }

  lemma ReadStep(s: string)
    requires |s| > 0
    ensures var n := FgetsLength(s, LINE_LIMIT + 1);
            ReadAll(s) == [Stripped(s[..n])] + ReadAll(s[n..])
  {
  }

  lemma StripLine(line: string)
    ensures Stripped(line + [NEWLINE]) == line
  {
    assert (line + [NEWLINE])[..|line|] == line;
  }

  lemma StripPart(part: string)
    requires NoNewline(part)
    ensures Stripped(part) == part
  {
  }

  /** A stretch of consecutive characters of a line. */
  ghost predicate Within(s: string, line: string) { exists a: nat, b: nat :: Cuts(s, line, a, b) }

  predicate Cuts(s: string, line: string, a: nat, b: nat) { a <= b <= |line| && s == line[a..b] }

  lemma {:induction false} PieceWithin(line: string, i: nat)
    requires i < |Pieces(line)|
    ensures Within(Pieces(line)[i], line)
    decreases |line|
  {
    if |line| <= LINE_LIMIT {
      assert Cuts(line, line, 0, |line|);
    } else if i == 0 {
      assert Cuts(Pieces(line)[0], line, 0, LINE_LIMIT + 1);
    } else {
      var tail := line[LINE_LIMIT + 1..];
      PieceWithin(tail, i - 1);
      var a: nat, b: nat :| Cuts(Pieces(tail)[i - 1], tail, a, b);
      CutOfTail(line, LINE_LIMIT + 1, a, b);
      assert Cuts(Pieces(line)[i], line, a + LINE_LIMIT + 1, b + LINE_LIMIT + 1);
    }
  }

  lemma CutOfTail(line: string, n: nat, a: nat, b: nat)
    requires n <= |line| && a <= b <= |line| - n
    ensures line[n..][a..b] == line[a + n..b + n]
  {
  }

  // ---- The printed lines hold no newline ----

  lemma {:induction false} EscapedOneLine(text: string)
    ensures NoNewline(Escaped(text))
  {
    hide Escape;
    if |text| > 0 {
      EscapedOneLine(text[1..]);
      EscapeOneLine(text[0]);
    }
  }

  lemma EscapeOneLine(c: char)
    ensures NoNewline(Escape(c))
  {
    if c as int >= 0x1_0000 {
      HexPlain(0xD800 + (c as int - 0x1_0000) / 1024);
      HexPlain(0xDC00 + (c as int - 0x1_0000) % 1024);
    } else {
      HexPlain(c as int);
    }
  }

  lemma {:induction false} DecimalNatOneLine(n: nat)
    ensures NoNewline(DecimalNat(n))
  {
    if n >= 10 {
      DecimalNatOneLine(n / 10);
    }
  }

  lemma DecimalOneLine(v: int)
    ensures NoNewline(Decimal(v))
  {
    hide DecimalNat;
    DecimalNatOneLine(if v < 0 then -v else v);
  }

  lemma {:induction false} FieldsOneLine(fields: seq<(string, int)>)
    requires Words(fields)
    ensures NoNewline(FieldText(fields))
  {
    hide Decimal;
    if |fields| > 0 {
      assert Word(fields[0].0);
      FieldsOneLine(fields[1..]);
      DecimalOneLine(fields[0].1);
    }
  }

  lemma CommandOneLine(r: Requests.Request)
    requires IsCommand(r.op)
    ensures NoNewline(CommandLine(r))
  {
    hide FieldText, PrintedFields;
    FieldsAreWords(r);
    FieldsOneLine(PrintedFields(r));
    NameOneLine(r.op);
    hide NameOf;
  }

  lemma NameOneLine(op: Requests.OpName)
    requires IsCommand(op)
    ensures NoNewline(NameOf(op))
  {
  }

  /** Whatever the text, a request is printed on one line. */
  lemma PrintedOneLine(r: Requests.Request)
    requires r.op != Requests.UnknownOp
    ensures NoNewline(Printed(r))
  {
    hide LogLine, ShutdownLine, CommandLine;
    if r.op == Requests.LogOp {
      LogOneLine(r.text, r.data, r.id);
    } else if r.op == Requests.ShutdownOp {
      ShutdownOneLine(r.id, r.data);
    } else {
      CommandOneLine(r);
    }
  }

  lemma LogOneLine(text: string, verbosity: int, id: int)
    ensures NoNewline(LogLine(text, verbosity, id))
  {
    hide Escaped, Decimal;
    DecimalOneLine(id);
    DecimalOneLine(verbosity);
    EscapedOneLine(text);
    AppendOneLine("{\"op\": \"log\", \"text\": \"", Escaped(text));
    AppendOneLine("\", \"data\": ", Decimal(verbosity));
    AppendOneLine(", \"id\": ", Decimal(id) + "}");
    AppendOneLine("\", \"data\": " + Decimal(verbosity), ", \"id\": " + (Decimal(id) + "}"));
    var a, b := "{\"op\": \"log\", \"text\": \"" + Escaped(text), "\", \"data\": " + Decimal(verbosity);
    var c := ", \"id\": " + (Decimal(id) + "}");
    AppendOneLine(a, b + c);
    assert LogLine(text, verbosity, id) == a + (b + c);
  }

  lemma ShutdownOneLine(id: int, failed: int)
    ensures NoNewline(ShutdownLine(id, failed))
  {
    hide Decimal;
    DecimalOneLine(id);
    DecimalOneLine(failed);
  }

  lemma AppendOneLine(a: string, b: string)
    requires NoNewline(a) && NoNewline(b)
    ensures NoNewline(a + b)
  {
  }

  // ---- Only a log line can be too long ----

  function Ten(k: nat): nat { if k == 0 then 1 else 10 * Ten(k - 1) }

  lemma {:induction false} DecimalLength(n: nat, k: nat)
    requires k > 0 && n < Ten(k)
    ensures |DecimalNat(n)| <= k
  {
    if n >= 10 {
      DecimalLength(n / 10, k - 1);
    }
  }

  lemma Ten19()
    ensures Ten(19) == 10_000_000_000_000_000_000
  {
    assert Ten(4) == 10_000;
    assert Ten(8) == 100_000_000;
    assert Ten(12) == 1_000_000_000_000;
    assert Ten(16) == 10_000_000_000_000_000;
  }

  lemma NumberLength(v: int)
    requires Fits(v)
    ensures |Decimal(v)| <= 20
  {
    hide DecimalNat;
    Ten19();
    DecimalLength(if v < 0 then -v else v, 19);
  }

  lemma {:induction false} FieldsLength(fields: seq<(string, int)>)
    requires forall i :: 0 <= i < |fields| ==> |fields[i].0| <= 5 && Fits(fields[i].1)
    ensures |FieldText(fields)| <= 31 * |fields| + 1
  {
    hide Decimal;
    if |fields| > 0 {
      NumberLength(fields[0].1);
      FieldsLength(fields[1..]);
    }
  }

  /** A command with 64-bit fields, or a shutdown, always fits in the receive buffer. */
  lemma CommandIsShort(r: Requests.Request)
    requires r.op != Requests.UnknownOp && r.op != Requests.LogOp && AllFit(r)
    ensures |Printed(r)| <= LINE_LIMIT
  {
    hide FieldText, Decimal;
    if r.op == Requests.ShutdownOp {
      NumberLength(r.id);
      NumberLength(r.data);
    } else {
      assert |NameOf(r.op)| <= 9;
      FieldsLength(PrintedFields(r));
    }
  }

  // ---- Every occurrence of a key ----

  /** An occurrence of the key anywhere in a joined line is a stretch that is the key. */
  lemma {:induction false} OccursAtStretch(segs: seq<string>, key: string, j: nat) returns (m: nat)
    requires |segs| > 0 && NoQuotes(segs) && NoQuote(key) && Occurs(Join(segs), Quoted(key), j)
    ensures 0 < m < |segs| - 1 && segs[m] == key && j + |key| + 2 <= |Join(segs)|
    ensures Join(segs)[j + |key| + 2..] == Join(segs[m + 1..])
    decreases |segs|
  {
    var line := Join(segs);
    if |segs| == 1 {
      StartsAtQuote(line, key, j);
      assert false;
    } else {
      var head, tail := segs[0] + [QUOTE], Join(segs[1..]);
      assert line == head + tail && line == segs[0] + ([QUOTE] + tail);
      m := 1;
      if j < |segs[0]| {
        NotInside(segs[0], [QUOTE] + tail, key, j);
      } else if j == |segs[0]| {
        AtFirstQuote(segs, key);
        assert tail == segs[1] + [QUOTE] + Join(segs[1..][1..]) && segs[1..][1..] == segs[2..];
        assert line[|segs[0]| + |key| + 2..] == Join(segs[2..]);
      } else {
        OccursShifted(head, tail, Quoted(key), j - |head|);
        var n := OccursAtStretch(segs[1..], key, j - |head|);
        m := n + 1;
        assert segs[1..][n] == segs[m] && segs[1..][n + 1..] == segs[m + 1..];
        DropShifted(head, tail, j - |head| + |key| + 2);
      }
    }
  }

  // ---- No piece of a line carries a larger identifier ----

  /** The number n, or something that is no number, begins here. */
  ghost predicate Carries(seg: string, n: nat)
  {
    (|seg| > 0 && seg[0] == ',') || (exists rest: string :: CarriesBefore(seg, n, rest))
  }

  predicate CarriesBefore(seg: string, n: nat, rest: string)
  {
    |rest| > 0 && !IsDigit(rest[0]) && seg == ": " + DecimalNat(n) + rest
  }

  /** Every stretch that is the key "id" is followed by n or by no number. */
  ghost predicate IdsCarry(segs: seq<string>, n: nat)
  {
    forall m :: 0 < m < |segs| - 1 && segs[m] == "id" ==> Carries(segs[m + 1], n)
  }

  lemma {:induction false} PrefixValue(n: nat, k: nat)
    requires k <= |DecimalNat(n)|
    ensures DigitsValue(DecimalNat(n)[..k], 0) <= n
  {
    if k == |DecimalNat(n)| {
      DigitsRead(n, "");
      assert DecimalNat(n)[..k] == DecimalNat(n) + "";
    } else if n >= 10 {
      PrefixValue(n / 10, k);
      assert DecimalNat(n)[..k] == DecimalNat(n / 10)[..k];
    }
  }

  lemma {:induction false} AllDigits(n: nat)
    ensures |DecimalNat(n)| > 0 && forall i :: 0 <= i < |DecimalNat(n)| ==> IsDigit(DecimalNat(n)[i])
  {
    if n >= 10 {
      AllDigits(n / 10);
    }
  }

  /** A number cut short is no larger. */
  lemma CutNumber(n: nat, rest: string, k: nat)
    requires |rest| > 0 && !IsDigit(rest[0])
    requires k <= |": " + DecimalNat(n) + rest|
    ensures IntValue(Some((": " + DecimalNat(n) + rest)[..k]), 0) <= n
  {
    hide DecimalNat, DigitsValue, SkipSeparators, SkipSpaces;
    var s := ": " + DecimalNat(n) + rest;
    AllDigits(n);
    if k <= 2 {
      NoNumberYet(s, k);
    } else {
      var d := DecimalNat(n);
      var body := if k - 2 <= |d| then d[..k - 2] else d + rest[..k - 2 - |d|];
      assert s[..k] == ": " + body;
      assert body[0] == d[0];
      SeparatorsSkipped(body);
      SpacesKept(body);
      if k - 2 <= |d| {
        PrefixValue(n, k - 2);
      } else {
        DigitsRead(n, rest[..k - 2 - |d|]);
      }
    }
  }

  lemma NoNumberYet(s: string, k: nat)
    requires k <= 2 <= |s| && s[0] == ':' && s[1] == ' '
    ensures IntValue(Some(s[..k]), 0) == 0
  {
    assert k == 2 ==> s[..2] == [':', ' '] && s[..2][1..] == [' '] && [' '][1..] == "";
    assert k == 1 ==> s[..1] == [':'] && [':'][1..] == "";
    assert SkipSeparators("") == "";
    assert SkipSeparators([' ']) == "";
  }

  lemma SpacesKept(s: string)
    requires |s| > 0 && !IsSpace(s[0])
    ensures SkipSpaces(s) == s
  {
  }

  lemma CutComma(s: string, k: nat)
    requires k <= |s| && (|s| > 0 ==> s[0] == ',')
    ensures IntValue(Some(s[..k]), 0) == 0
  {
    var t := s[..k];
    assert |t| > 0 ==> t[0] == ',';
    assert SkipSeparators(t) == t && SkipSpaces(t) == t;
  }

  /** What the scanner reads after the key in a cut of the line. */
  lemma CutCarries(seg: string, more: seq<string>, n: nat, k: nat)
    requires Carries(seg, n) && k <= |Join([seg] + more)|
    ensures IntValue(Some(Join([seg] + more)[..k]), 0) <= n
  {
    hide Join, IntValue, DecimalNat;
    var tail := if |more| == 0 then "" else [QUOTE] + Join(more);
    JoinStep([seg] + more);
    assert ([seg] + more)[1..] == more;
    assert Join([seg] + more) == seg + tail;
    if |seg| > 0 && seg[0] == ',' {
      CutComma(seg + tail, k);
    } else {
      var rest: string :| CarriesBefore(seg, n, rest);
      assert seg + tail == ": " + DecimalNat(n) + (rest + tail);
      CutNumber(n, rest + tail, k);
    }
  }

  lemma ThereOrMissing(rest: Option<string>, n: nat)
    requires rest.Some? ==> IntValue(rest, 0) <= n
    ensures IntValue(rest, -1) <= n
  {
  }

  /** The identifier read from any stretch of a line is at most the line's own. */
  lemma CutIdentifier(segs: seq<string>, n: nat, piece: string)
    requires |segs| > 0 && NoQuotes(segs) && IdsCarry(segs, n) && Within(piece, Join(segs))
    ensures IntValue(RestAfter(piece, "id"), -1) <= n
  {
    hide Join, RestAfter, IntValue, IdsCarry, NoQuotes;
    var line := Join(segs);
    var a: nat, b: nat :| Cuts(piece, line, a, b);
    var rest := RestAfter(piece, "id");
    RestAfterFollows(piece, "id");
    if rest.Some? {
      var i: nat :| FirstAt(piece, "id", i) && rest.value == piece[i + 4..];
      CutOccurs(line, a, b, i);
      CutRest(line, a, b, i);
      OccurrenceCarries(segs, n, a + i, b - a - i - 4);
    }
    ThereOrMissing(rest, n);
  }

  lemma OccurrenceCarries(segs: seq<string>, n: nat, j: nat, k: nat)
    requires |segs| > 0 && NoQuotes(segs) && IdsCarry(segs, n) && Occurs(Join(segs), Quoted("id"), j)
    requires j + 4 + k <= |Join(segs)|
    ensures IntValue(Some(Join(segs)[j + 4..][..k]), 0) <= n
  {
    hide Join, IntValue, Carries, Occurs;
    var m := OccursAtStretch(segs, "id", j);
    assert segs[m + 1..] == [segs[m + 1]] + segs[m + 2..];
    CutCarries(segs[m + 1], segs[m + 2..], n, k);
  }

  lemma CutOccurs(line: string, a: nat, b: nat, i: nat)
    requires a <= b <= |line| && Occurs(line[a..b], Quoted("id"), i)
    ensures Occurs(line, Quoted("id"), a + i) && i + 4 <= b - a
  {
    SliceOfSlice(line, a, b, i, i + 4);
  }

  lemma CutRest(line: string, a: nat, b: nat, i: nat)
    requires a <= b <= |line| && i + 4 <= b - a
    ensures line[a..b][i + 4..] == line[a + i + 4..][..b - a - i - 4]
  {
  }

  // ---- The identifiers of the printed lines ----

  lemma FieldStartCarries(v: nat, fields: seq<(string, int)>)
    ensures Carries(FieldSegs(": " + Decimal(v), fields)[0], v)
  {
    hide DecimalNat, FieldSegs;
    FieldsStart(": " + Decimal(v), fields);
    assert CarriesBefore(FieldSegs(": " + Decimal(v), fields)[0], v, if |fields| == 0 then "}" else ", ");
  }

  /** Fields whose only identifier is n. */
  ghost predicate IdsAre(fields: seq<(string, int)>, n: nat)
  {
    forall i :: 0 <= i < |fields| && fields[i].0 == "id" ==> fields[i].1 == n
  }

  lemma {:induction false} FieldIdsCarry(before: string, fields: seq<(string, int)>, n: nat)
    requires IdsAre(fields, n)
    requires |before| > 0 ==> before[0] == ':'
    ensures IdsCarry(FieldSegs(before, fields), n)
    decreases |fields|
  {
    hide DecimalNat, Carries;
    if |fields| > 0 {
      var v := ": " + Decimal(fields[0].1);
      var next := FieldSegs(v, fields[1..]);
      FieldIdsCarry(v, fields[1..], n);
      FieldsStart(v, fields[1..]);
      if fields[0].0 == "id" {
        FieldStartCarries(n, fields[1..]);
      }
      var segs := FieldSegs(before, fields);
      assert segs[2..] == next;
      forall m | 0 < m < |segs| - 1 && segs[m] == "id" ensures Carries(segs[m + 1], n) {
        assert segs[2] == next[0] && next[0][0] == ':';
        if m > 2 {
          assert segs[m] == next[m - 2] && segs[m + 1] == next[m - 1];
        }
      }
    }
  }

  /** Stretches that are not the key, then stretches that carry the identifier. */
  lemma AppendCarry(pre: seq<string>, segs: seq<string>, n: nat)
    requires |segs| > 0 && IdsCarry(segs, n)
    requires forall j :: 0 < j < |pre| ==> pre[j] == "id" ==> j == |pre| - 1 && Carries(segs[0], n)
    requires segs[0] != "id" || |segs| == 1
    ensures IdsCarry(pre + segs, n)
  {
    hide Carries;
    var all := pre + segs;
    forall m | 0 < m < |all| - 1 && all[m] == "id" ensures Carries(all[m + 1], n) {
      if m >= |pre| {
        assert all[m] == segs[m - |pre|] && all[m + 1] == segs[m - |pre| + 1];
      } else if m == |pre| - 1 {
        assert all[m + 1] == segs[0];
      }
    }
  }

  lemma CommandIds(r: Requests.Request)
    requires IsCommand(r.op) && r.id >= 0
    ensures IdsCarry(CommandSegs(NameOf(r.op), PrintedFields(r)), r.id)
  {
    hide Carries, FieldSegs, DecimalNat, Word;
    NamesAreNoKeys(r.op, "id");
    var fields := PrintedFields(r);
    FieldKeysDiffer(r);
    FieldIdsCarry("", fields, r.id);
    FieldsStart("", fields);
    var pre := HEAD_OP + [NameOf(r.op)];
    assert pre[1] == "op" && pre[2] == ": ";
    AppendCarry(pre, FieldSegs("", fields), r.id);
  }

  lemma FieldKeysDiffer(r: Requests.Request)
    requires IsCommand(r.op) && r.id >= 0
    ensures IdsAre(PrintedFields(r), r.id)
  {
    KeysDiffer();
  }

  lemma LogIds(text: string, verbosity: int, id: nat)
    ensures IdsCarry(LogSegs(text, verbosity, id), id)
  {
    hide Carries, FieldSegs, BodySegs, DecimalNat;
    var fields := LogFields(verbosity, id);
    var body, tail := BodySegs(text), FieldSegs("", fields);
    FieldIdsCarry("", fields, id);
    FieldsStart("", fields);
    assert tail[0] == ", ";
    var pre := HEAD_OP + ["log"] + [", ", "text", ": "] + body;
    assert LogSegs(text, verbosity, id) == pre + tail;
    forall j | 0 < j < |pre| - 1 ensures pre[j] != "id" {
      if j >= 7 {
        BodyStretches(text, j - 7);
        assert pre[j] == body[j - 7];
      } else {
        assert pre[2] == ": " && pre[6] == ": ";
      }
    }
    CommaCarries(tail[0], id);
    AppendCarry(pre, tail, id);
  }

  lemma CommaCarries(seg: string, n: nat)
    requires |seg| > 0 && seg[0] == ','
    ensures Carries(seg, n)
  {
  }

  lemma ShutdownIds(id: nat, failed: int)
    ensures IdsCarry(ShutdownSegs(id, failed), id)
  {
    hide DecimalNat;
    var segs := ShutdownSegs(id, failed);
    assert CarriesBefore(segs[2], id, ", ");
    assert segs[4][0] == ':' && segs[6][0] == ',' && segs[2][0] == ':';
    assert segs[5] == "shutdown" && segs[7] == "data" && segs[3] == "op";
  }

  /** Whatever the cut, a piece of a printed line is never taken for a later request than the line's own. */
  lemma PieceIdentifier(r: Requests.Request, piece: string)
    requires r.op != Requests.UnknownOp && r.id >= 0 && Within(piece, Printed(r))
    ensures Understood(piece).id <= r.id
  {
    hide Join, Within, RestAfter, IntValue, StrValue, EscValue, NoQuotes, IdsCarry, LogLine, CommandLine, ShutdownLine;
    if r.op == Requests.LogOp {
      LogLineJoined(r.text, r.data, r.id);
      LogUnquoted(r.text, r.data, r.id);
      LogIds(r.text, r.data, r.id);
      CutIdentifier(LogSegs(r.text, r.data, r.id), r.id, piece);
    } else if r.op == Requests.ShutdownOp {
      ShutdownJoined(r.id, r.data);
      ShutdownUnquoted(r.id, r.data);
      ShutdownIds(r.id, r.data);
      CutIdentifier(ShutdownSegs(r.id, r.data), r.id, piece);
    } else {
      CommandJoined(r);
      NamesAreNoKeys(r.op, "id");
      FieldsAreWords(r);
      CommandUnquoted(NameOf(r.op), PrintedFields(r));
      CommandIds(r);
      CutIdentifier(CommandSegs(NameOf(r.op), PrintedFields(r)), r.id, piece);
    }
  }
}
