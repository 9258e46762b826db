// The bridge's hand-written JSON scanner (src/pydebug/c_bridge/uvm_bridge.c)
// against the Python printer that feeds it (src/pydebug/api/uvm_transport.py):
// what the scanner makes of every line the client can print.

module Json {
  import opened Bits
  import opened Registers

  // ---- The scanner ----

  const QUOTE := '\"'
  const BACKSLASH := '\\'

  predicate Occurs(s: string, pattern: string, i: nat)
  {
    i + |pattern| <= |s| && s[i..i + |pattern|] == pattern
  }

  function Quoted(key: string): string { [QUOTE] + key + [QUOTE] }

  /** strstr */
  method Strstr(s: string, pattern: string) returns (at: Option<nat>)
    ensures at.Some? ==> Occurs(s, pattern, at.value) && forall j :: 0 <= j < at.value ==> !Occurs(s, pattern, j)
    ensures at.None? ==> forall j: nat :: !Occurs(s, pattern, j)
  {
    var i := 0;
    while i + |pattern| <= |s|
      invariant forall j: nat :: j < i ==> !Occurs(s, pattern, j)
    {
      if s[i..i + |pattern|] == pattern {
        return Some(i);
      }
      i := i + 1;
    }
    return None;
  }

  ghost predicate FirstAt(line: string, key: string, i: nat)
  {
    Occurs(line, Quoted(key), i) && forall j: nat :: j < i ==> !Occurs(line, Quoted(key), j)
  }

  ghost predicate Absent(line: string, key: string) { forall j: nat :: !Occurs(line, Quoted(key), j) }

  /** What follows the first occurrence of the quoted key. */
  ghost predicate Follows(line: string, key: string, rest: Option<string>)
  {
    match rest
    case None => Absent(line, key)
    case Some(r) => exists i: nat :: FirstAt(line, key, i) && r == line[i + |key| + 2..]
  }

  lemma FollowsUnique(line: string, key: string, a: Option<string>, b: Option<string>)
    requires Follows(line, key, a) && Follows(line, key, b)
    ensures a == b
  {
    if a.Some? && b.Some? {
      var i: nat :| FirstAt(line, key, i) && a.value == line[i + |key| + 2..];
      var j: nat :| FirstAt(line, key, j) && b.value == line[j + |key| + 2..];
      assert i == j;
    }
  }

  /** What follows the first occurrence of the quoted key, searching from the front. */
  function RestAfter(line: string, key: string): Option<string>
  {
    if |line| < |key| + 2 then None
    else if line[..|key| + 2] == Quoted(key) then Some(line[|key| + 2..])
    else RestAfter(line[1..], key)
  }

  lemma OccursTail(line: string, pattern: string, j: nat)
    requires |line| > 0
    ensures Occurs(line[1..], pattern, j) <==> Occurs(line, pattern, j + 1)
  {
    if j + 1 + |pattern| <= |line| {
      assert line[1..][j..j + |pattern|] == line[j + 1..j + 1 + |pattern|];
    }
  }

  lemma {:induction false} RestAfterFollows(line: string, key: string)
    ensures Follows(line, key, RestAfter(line, key))
    decreases |line|
  {
    if |line| >= |key| + 2 {
      assert line[0..|key| + 2] == line[..|key| + 2];
      if line[..|key| + 2] == Quoted(key) {
        assert FirstAt(line, key, 0);
      } else {
        RestAfterFollows(line[1..], key);
        forall j: nat ensures Occurs(line[1..], Quoted(key), j) <==> Occurs(line, Quoted(key), j + 1) {
          OccursTail(line, Quoted(key), j);
        }
        FollowsTail(line, key);
      }
    }
  }

  lemma DropTail(line: string, n: nat)
    requires |line| > 0 && n <= |line| - 1
    ensures line[1..][n..] == line[n + 1..]
  {
  }

  lemma FollowsTail(line: string, key: string)
    requires |line| > 0 && !Occurs(line, Quoted(key), 0) && Follows(line[1..], key, RestAfter(line[1..], key))
    requires forall j: nat :: Occurs(line[1..], Quoted(key), j) <==> Occurs(line, Quoted(key), j + 1)
    ensures Follows(line, key, RestAfter(line[1..], key))
  {
    hide RestAfter;
    match RestAfter(line[1..], key)
    case None =>
      forall j: nat ensures !Occurs(line, Quoted(key), j) {
        assert j > 0 ==> !Occurs(line[1..], Quoted(key), j - 1);
      }
    case Some(r) =>
      var i: nat :| FirstAt(line[1..], key, i) && r == line[1..][i + |key| + 2..];
      FirstAtNext(line, key, i);
      DropTail(line, i + |key| + 2);
  }

  lemma FirstAtNext(line: string, key: string, i: nat)
    requires |line| > 0 && !Occurs(line, Quoted(key), 0) && FirstAt(line[1..], key, i)
    requires forall j: nat :: Occurs(line[1..], Quoted(key), j) <==> Occurs(line, Quoted(key), j + 1)
    ensures FirstAt(line, key, i + 1)
  {
    hide Occurs;
    forall j: nat | j < i + 1 ensures !Occurs(line, Quoted(key), j) {
      assert j > 0 ==> !Occurs(line[1..], Quoted(key), j - 1);
    }
  }

  lemma Regrouped(a: string, b: string, c: string)
    ensures a + (b + c) == a + b + c
  {
  }

  lemma NextTail(s: string, p: nat)
    requires p < |s|
    ensures s[p..][1..] == s[p + 1..]
  {
  }

  /** `while (*p == ':' || *p == ' ') p++` */
  function SkipSeparators(s: string): string
  {
    if |s| > 0 && (s[0] == ':' || s[0] == ' ') then SkipSeparators(s[1..]) else s
  }

  predicate IsDigit(c: char) { '0' <= c <= '9' }

  predicate IsSpace(c: char) { c == ' ' || '\t' <= c <= '\r' }

  function SkipSpaces(s: string): string
  {
    if |s| > 0 && IsSpace(s[0]) then SkipSpaces(s[1..]) else s
  }

  /** The value of the leading digits, continuing from `acc`. */
  function DigitsValue(s: string, acc: nat): nat
  {
    if |s| > 0 && IsDigit(s[0]) then DigitsValue(s[1..], 10 * acc + (s[0] as int - '0' as int)) else acc
  }

  const LLONG_MAX := 0x7FFF_FFFF_FFFF_FFFF

  function Clamp(v: int): int
  {
    if v > LLONG_MAX then LLONG_MAX else if v < -LLONG_MAX - 1 then -LLONG_MAX - 1 else v
  }

  /** strtoll in base 10: 0 when there is no number, saturated when it does not fit. */
  function Strtoll(s: string): int
  {
    var t := SkipSpaces(s);
    if |t| > 0 && t[0] == '-' then Clamp(0 - DigitsValue(t[1..], 0))
    else if |t| > 0 && t[0] == '+' then Clamp(DigitsValue(t[1..], 0))
    else Clamp(DigitsValue(t, 0))
  }

  /** The number a key is followed by; `missing` when the key does not occur. */
  function IntValue(rest: Option<string>, missing: int): int
  {
    if rest.None? then missing else Strtoll(SkipSeparators(rest.value))
  }

  method ScanNumber(s: string, start: nat) returns (v: int)
    requires start <= |s|
    ensures v == Strtoll(s[start..])
  {
    var p := start;
    while p < |s| && IsSpace(s[p])
      invariant start <= p <= |s| && SkipSpaces(s[p..]) == SkipSpaces(s[start..])
    {
      p := p + 1;
    }
    assert s[p..] == SkipSpaces(s[start..]);
    var negative := p < |s| && s[p] == '-';
    if negative || (p < |s| && s[p] == '+') {
      NextTail(s, p);
      p := p + 1;
    }
    var acc: nat := 0;
    ghost var digits := s[p..];
    while p < |s| && IsDigit(s[p])
      invariant p <= |s| && DigitsValue(s[p..], acc) == DigitsValue(digits, 0)
    {
      NextTail(s, p);
      acc, p := 10 * acc + (s[p] as int - '0' as int), p + 1;
    }
    v := Clamp(if negative then 0 - acc else acc);
  }

  /** The common start of the three readers: past the first occurrence of the key and its separators. */
  method ValueStart(json: string, key: string) returns (start: Option<nat>)
    ensures start.Some? <==> RestAfter(json, key).Some?
    ensures start.Some? ==> start.value <= |json| && json[start.value..] == SkipSeparators(RestAfter(json, key).value)
  {
    var at := Strstr(json, Quoted(key));
    RestAfterFollows(json, key);
    if at.None? {
      FollowsUnique(json, key, None, RestAfter(json, key));
      return None;
    }
    var p := at.value + |Quoted(key)|;
    ghost var rest := Some(json[p..]);
    assert FirstAt(json, key, at.value);
    FollowsUnique(json, key, rest, RestAfter(json, key));
    while p < |json| && (json[p] == ':' || json[p] == ' ')
      invariant p <= |json| && SkipSeparators(json[p..]) == SkipSeparators(rest.value)
    {
      NextTail(json, p);
      p := p + 1;
    }
    start := Some(p);
  }

  /** json_get_int: the number after the first occurrence of the key, whatever that occurrence is. */
  method JsonGetInt(json: string, key: string, missing: int) returns (v: int)
    ensures v == IntValue(RestAfter(json, key), missing)
  {
    var start := ValueStart(json, key);
    if start.None? {
      return missing;
    }
    v := ScanNumber(json, start.value);
  }

  /** The characters up to the closing quote. */
  function UpToQuote(s: string): string
  {
    if |s| > 0 && s[0] != QUOTE then [s[0]] + UpToQuote(s[1..]) else []
  }

  function Take(s: string, n: nat): string { if |s| <= n then s else s[..n] }

  /** The value after the key if it is a string; None when the key or its opening quote is missing. */
  function StrValue(rest: Option<string>, cap: nat): Option<string>
    requires cap > 0
  {
    if rest.None? then None
    else
      var t := SkipSeparators(rest.value);
      if |t| > 0 && t[0] == QUOTE then Some(Take(UpToQuote(t[1..]), cap - 1)) else None
  }

  /** json_get_str into a buffer of `cap` characters. */
  method JsonGetStr(json: string, key: string, cap: nat) returns (v: Option<string>)
    requires cap > 0
    ensures v == StrValue(RestAfter(json, key), cap)
  {
    var start := ValueStart(json, key);
    if start.None? || start.value == |json| || json[start.value] != QUOTE {
      return None;
    }
    NextTail(json, start.value);
    var buf := CopyInto(json, start.value + 1, cap);
    v := Some(buf);
  }

  lemma CopyStep(s: string, p: nat, buf: string)
    requires p < |s| && s[p] != QUOTE
    ensures buf + UpToQuote(s[p..]) == buf + [s[p]] + UpToQuote(s[p + 1..])
  {
    NextTail(s, p);
    Regrouped(buf, [s[p]], UpToQuote(s[p + 1..]));
  }

  lemma CopyEnd(s: string, p: nat, buf: string, room: nat)
    requires p <= |s| && |buf| <= room
    requires p < |s| && |buf| < room ==> s[p] == QUOTE
    ensures buf == Take(buf + UpToQuote(s[p..]), room)
  {
    var body := buf + UpToQuote(s[p..]);
    assert body[..|buf|] == buf;
  }

  method CopyInto(json: string, start: nat, cap: nat) returns (buf: string)
    requires start <= |json| && cap > 0
    ensures buf == Take(UpToQuote(json[start..]), cap - 1)
  {
    hide UpToQuote, Take;
    var p := start;
    buf := "";
    ghost var body := UpToQuote(json[start..]);
    while p < |json| && json[p] != QUOTE && |buf| < cap - 1
      invariant p <= |json| && |buf| <= cap - 1 && body == buf + UpToQuote(json[p..])
    {
      CopyStep(json, p, buf);
      buf, p := buf + [json[p]], p + 1;
    }
    CopyEnd(json, p, buf, cap - 1);
  }

  /** The character an escape stands for in the scanner: none for a carriage return. */
  function EscapeMeans(c: char): string
  {
    if c == 'n' then "\n" else if c == 't' then "\t" else if c == 'r' then "" else [c]
  }

  /** The characters up to the closing quote, escapes resolved. */
  function Unescaped(s: string): string
    decreases |s|
  {
    if |s| == 0 then ""
    else if s[0] == BACKSLASH && |s| > 1 then EscapeMeans(s[1]) + Unescaped(s[2..])
    else if s[0] == QUOTE then ""
    else [s[0]] + Unescaped(s[1..])
  }

  function EscValue(rest: Option<string>, cap: nat): Option<string>
    requires cap > 0
  {
    if rest.None? then None
    else
      var t := SkipSeparators(rest.value);
      if |t| > 0 && t[0] == QUOTE then Some(Take(Unescaped(t[1..]), cap - 1)) else None
  }

  /** json_get_str_esc into a buffer of `cap` characters. */
  method JsonGetStrEsc(json: string, key: string, cap: nat) returns (v: Option<string>)
    requires cap > 0
    ensures v == EscValue(RestAfter(json, key), cap)
  {
    var start := ValueStart(json, key);
    if start.None? || start.value == |json| || json[start.value] != QUOTE {
      return None;
    }
    NextTail(json, start.value);
    var buf := UnescapeInto(json, start.value + 1, cap);
    v := Some(buf);
  }

  lemma UnescapedAt(s: string, p: nat)
    requires p < |s|
    ensures Unescaped(s[p..]) ==
            if s[p] == BACKSLASH && p + 1 < |s| then EscapeMeans(s[p + 1]) + Unescaped(s[p + 2..])
            else if s[p] == QUOTE then "" else [s[p]] + Unescaped(s[p + 1..])
  {
    var rest := s[p..];
    assert rest[1..] == s[p + 1..];
    if p + 1 < |s| {
      assert rest[2..] == s[p + 2..];
    }
  }

  /** One step of the scan: the characters it appends are those the rest of the text stands for next. */
  lemma ScanStep(json: string, p: nat, buf: string)
    requires p < |json| && json[p] != QUOTE
    ensures json[p] == BACKSLASH && p + 1 < |json| ==>
              buf + Unescaped(json[p..]) == buf + EscapeMeans(json[p + 1]) + Unescaped(json[p + 2..])
    ensures !(json[p] == BACKSLASH && p + 1 < |json|) ==>
              buf + Unescaped(json[p..]) == buf + [json[p]] + Unescaped(json[p + 1..])
  {
    hide Unescaped, EscapeMeans;
    UnescapedAt(json, p);
    if json[p] == BACKSLASH && p + 1 < |json| {
      Regrouped(buf, EscapeMeans(json[p + 1]), Unescaped(json[p + 2..]));
    } else {
      Regrouped(buf, [json[p]], Unescaped(json[p + 1..]));
    }
  }

  /** The scan ends at the closing quote, at the end of the text or with a full buffer. */
  lemma ScanEnd(json: string, p: nat, buf: string, room: nat)
    requires p <= |json| && |buf| <= room
    requires p < |json| && |buf| < room ==> json[p] == QUOTE
    ensures buf == Take(buf + Unescaped(json[p..]), room)
  {
    hide Unescaped;
    var body := buf + Unescaped(json[p..]);
    if p < |json| {
      UnescapedAt(json, p);
    } else {
      UnescapedEmpty(json[p..]);
    }
    assert body[..|buf|] == buf;
  }

  method UnescapeInto(json: string, start: nat, cap: nat) returns (buf: string)
    requires start <= |json| && cap > 0
    ensures buf == Take(Unescaped(json[start..]), cap - 1)
  {
    hide Unescaped, Take;
    var p := start;
    buf := "";
    ghost var body := Unescaped(json[start..]);
    while p < |json| && |buf| < cap - 1 && json[p] != QUOTE
      invariant p <= |json| && |buf| <= cap - 1 && body == buf + Unescaped(json[p..])
      decreases |json| - p
    {
      ScanStep(json, p, buf);
      if json[p] == BACKSLASH && p + 1 < |json| {
        var c := json[p + 1];
        if c == 'n' {
          buf := buf + "\n";
        } else if c == 't' {
          buf := buf + "\t";
        } else if c != 'r' {
          buf := buf + [c];
        }
        p := p + 2;
      } else {
        buf, p := buf + [json[p]], p + 1;
      }
    }
    ScanEnd(json, p, buf, cap - 1);
  }

  lemma UnescapedEmpty(s: string)
    requires |s| == 0
    ensures Unescaped(s) == ""
  {
  }
}
