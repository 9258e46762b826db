// The lines the client prints (json.dumps in src/pydebug/api/uvm_transport.py)
// and what handle_request reads back from them (src/pydebug/c_bridge/uvm_bridge.c).
// A line is treated as its stretches between quotes.

module LineProtocol {
  import opened Bits
  import opened Registers
  import opened Json

  // ---- Lines as quote-separated stretches ----

  predicate NoQuote(s: string) { forall i :: 0 <= i < |s| ==> s[i] != QUOTE }

  ghost predicate NoQuotes(segs: seq<string>) { forall j :: 0 <= j < |segs| ==> NoQuote(segs[j]) }

  function Join(segs: seq<string>): string
    requires |segs| > 0
  {
    if |segs| == 1 then segs[0] else segs[0] + [QUOTE] + Join(segs[1..])
  }

  /** The stretches after the first one, other than the very first and last, that is the key itself. */
  function AfterKey(segs: seq<string>, key: string): Option<seq<string>>
    requires |segs| > 0
    ensures AfterKey(segs, key).Some? ==> |AfterKey(segs, key).value| > 0
  {
    if |segs| < 3 then None
    else if segs[1] == key then Some(segs[2..])
    else AfterKey(segs[1..], key)
  }

  lemma OccursShifted(a: string, b: string, pattern: string, j: nat)
    ensures Occurs(a + b, pattern, |a| + j) <==> Occurs(b, pattern, j)
  {
    if j + |pattern| <= |b| {
      assert (a + b)[|a| + j..|a| + j + |pattern|] == b[j..j + |pattern|];
    }
  }

  lemma SliceOfSlice(s: string, a: nat, b: nat, c: nat, d: nat)
    requires a <= b <= |s| && c <= d <= b - a
    ensures s[a..b][c..d] == s[a + c..a + d]
  {
    var x, y := s[a..b][c..d], s[a + c..a + d];
    assert |x| == |y|;
    forall k | 0 <= k < |x| ensures x[k] == y[k] {
      assert x[k] == s[a..b][c + k];
    }
  }

  lemma StartsAtQuote(s: string, key: string, j: nat)
    requires Occurs(s, Quoted(key), j)
    ensures s[j] == QUOTE && s[j + 1..j + 1 + |key|] == key && s[j + 1 + |key|] == QUOTE
  {
    var n, m := |key|, s[j..j + |Quoted(key)|];
    assert m == Quoted(key) && |m| == n + 2;
    assert m[0] == QUOTE && m[1..1 + n] == key && m[1 + n] == QUOTE;
    assert s[j] == m[0] && s[j + 1 + n] == m[1 + n];
    SliceOfSlice(s, j, j + n + 2, 1, 1 + n);
  }

  /** No occurrence starts inside a stretch without quotes. */
  lemma NotInside(seg: string, rest: string, key: string, j: nat)
    requires NoQuote(seg) && j < |seg|
    ensures !Occurs(seg + rest, Quoted(key), j)
  {
    assert (seg + rest)[j] == seg[j];
    if Occurs(seg + rest, Quoted(key), j) {
      StartsAtQuote(seg + rest, key, j);
    }
  }

  /** An occurrence at the first quote is the second stretch. */
  lemma AtFirstQuote(segs: seq<string>, key: string)
    requires |segs| >= 2 && NoQuotes(segs) && NoQuote(key)
    ensures Occurs(Join(segs), Quoted(key), |segs[0]|) <==> |segs| >= 3 && segs[1] == key
  {
    var rest := Join(segs[1..]);
    var line := Join(segs);
    assert line == segs[0] + [QUOTE] + rest;
    if |segs| == 2 {
      assert rest == segs[1];
      if |segs[0]| + 1 + |key| < |line| {
        assert line[|segs[0]| + 1 + |key|] == segs[1][|key|];
      }
      if Occurs(line, Quoted(key), |segs[0]|) {
        StartsAtQuote(line, key, |segs[0]|);
      }
    } else {
      var tail := Join(segs[1..][1..]);
      assert rest == segs[1] + [QUOTE] + tail;
      assert line == segs[0] + [QUOTE] + segs[1] + [QUOTE] + tail;
      if Occurs(line, Quoted(key), |segs[0]|) {
        StartsAtQuote(line, key, |segs[0]|);
        SameStretch(segs[0], segs[1], key, tail);
      }
      if segs[1] == key {
        assert line[|segs[0]|..|segs[0]| + |Quoted(key)|] == Quoted(key);
      }
    }
  }

  lemma SameStretch(head: string, seg: string, key: string, tail: string)
    requires NoQuote(seg) && NoQuote(key)
    requires |head| + 1 + |key| < |head + [QUOTE] + seg + [QUOTE] + tail|
    ensures var line := head + [QUOTE] + seg + [QUOTE] + tail;
            line[|head| + 1..|head| + 1 + |key|] == key && line[|head| + 1 + |key|] == QUOTE ==> seg == key
  {
    var line := head + [QUOTE] + seg + [QUOTE] + tail;
    assert line[|head| + 1 + |seg|] == QUOTE;
    if |seg| < |key| {
      assert line[|head| + 1..|head| + 1 + |key|][|seg|] == QUOTE;
    } else if |key| < |seg| {
      assert line[|head| + 1 + |key|] == seg[|key|];
    } else {
      assert line[|head| + 1..|head| + 1 + |seg|] == seg;
    }
  }

  /** strstr on the joined line finds the first stretch that is the key. */
  lemma {:induction false} FollowsJoined(segs: seq<string>, key: string)
    requires |segs| > 0 && NoQuotes(segs) && NoQuote(key)
    ensures var rest := AfterKey(segs, key);
            Follows(Join(segs), key, if rest.None? then None else Some(Join(rest.value)))
    decreases |segs|
  {
    var line := Join(segs);
    if |segs| == 1 {
      forall j: nat ensures !Occurs(line, Quoted(key), j) {
        if Occurs(line, Quoted(key), j) {
          StartsAtQuote(line, key, j);
        }
      }
    } else {
      var head, tail := segs[0] + [QUOTE], Join(segs[1..]);
      assert line == head + tail && line == segs[0] + ([QUOTE] + tail);
      forall j: nat | j < |segs[0]| ensures !Occurs(line, Quoted(key), j) {
        NotInside(segs[0], [QUOTE] + tail, key, j);
      }
      AtFirstQuote(segs, key);
      if |segs| >= 3 && segs[1] == key {
        assert FirstAt(line, key, |segs[0]|);
        assert tail == segs[1] + [QUOTE] + Join(segs[1..][1..]) && segs[1..][1..] == segs[2..];
        assert line[|segs[0]| + |key| + 2..] == Join(segs[2..]);
      } else {
        FollowsJoined(segs[1..], key);
        forall j: nat | j < |head| ensures !Occurs(head + tail, Quoted(key), j) {
          assert j == |segs[0]| || j < |segs[0]|;
        }
        ShiftFollows(head, tail, key, AfterKey(segs[1..], key));
      }
    }
  }

  lemma ShiftFollows(head: string, tail: string, key: string, rest: Option<seq<string>>)
    requires forall j: nat :: j < |head| ==> !Occurs(head + tail, Quoted(key), j)
    requires rest.Some? ==> |rest.value| > 0
    requires Follows(tail, key, if rest.None? then None else Some(Join(rest.value)))
    ensures Follows(head + tail, key, if rest.None? then None else Some(Join(rest.value)))
  {
    var line := head + tail;
    forall j: nat ensures Occurs(line, Quoted(key), |head| + j) <==> Occurs(tail, Quoted(key), j) {
      OccursShifted(head, tail, Quoted(key), j);
    }
    hide Occurs, Join;
    match rest
    case None =>
      forall j: nat ensures !Occurs(line, Quoted(key), j) {
        if j >= |head| {
          assert Occurs(line, Quoted(key), |head| + (j - |head|)) <==> Occurs(tail, Quoted(key), j - |head|);
        }
      }
    case Some(r) =>
      var i: nat :| FirstAt(tail, key, i) && Join(r) == tail[i + |key| + 2..];
      forall j: nat | j < |head| + i ensures !Occurs(line, Quoted(key), j) {
        if j >= |head| {
          assert Occurs(line, Quoted(key), |head| + (j - |head|)) <==> Occurs(tail, Quoted(key), j - |head|);
        }
      }
      assert FirstAt(line, key, |head| + i);
      DropShifted(head, tail, i + |key| + 2);
  }

  lemma DropShifted(head: string, tail: string, n: nat)
    ensures n <= |tail| ==> (head + tail)[|head| + n..] == tail[n..]
  {
  }

  /** The scanner on a joined line: the stretches after the first one that is the key. */
  lemma RestAfterJoined(segs: seq<string>, key: string)
    requires |segs| > 0 && NoQuotes(segs) && NoQuote(key)
    ensures RestAfter(Join(segs), key) ==
            if AfterKey(segs, key).None? then None else Some(Join(AfterKey(segs, key).value))
  {
    FollowsJoined(segs, key);
    RestAfterFollows(Join(segs), key);
    var rest := AfterKey(segs, key);
    FollowsUnique(Join(segs), key, RestAfter(Join(segs), key), if rest.None? then None else Some(Join(rest.value)));
  }

  lemma {:induction false} JoinAppend(a: seq<string>, b: seq<string>)
    requires |a| > 0 && |b| > 0
    ensures Join(a + b) == Join(a) + [QUOTE] + Join(b)
  {
    if |a| == 1 {
      assert (a + b)[1..] == b;
    } else {
      assert (a + b)[1..] == a[1..] + b;
      JoinAppend(a[1..], b);
    }
  }

  /** Stretches that are not the key are passed over. */
  lemma {:induction false} PassOver(pre: seq<string>, post: seq<string>, key: string)
    requires |pre| > 0 && |post| >= 2 && forall j :: 1 <= j < |pre| ==> pre[j] != key
    ensures AfterKey(pre + post, key) == AfterKey([pre[|pre| - 1]] + post, key)
    decreases |pre|
  {
    if |pre| > 1 {
      assert (pre + post)[1..] == pre[1..] + post;
      PassOver(pre[1..], post, key);
    } else {
      assert pre == [pre[0]];
    }
  }

  // ---- Printing ----

  function HexDigit(n: nat): char
    requires n < 16
  {
    if n < 10 then '0' + n as char else 'a' + (n - 10) as char
  }

  function Hex4(n: nat): string
  {
    [HexDigit(n / 4096 % 16), HexDigit(n / 256 % 16), HexDigit(n / 16 % 16), HexDigit(n % 16)]
  }

  predicate Printable(c: char) { ' ' <= c <= '~' }

  /** One character as json.dumps prints it inside a string, ensure_ascii left on. */
  function Escape(c: char): string
  {
    if c == QUOTE then [BACKSLASH, QUOTE]
    else if c == BACKSLASH then [BACKSLASH, BACKSLASH]
    else if c == '\n' then [BACKSLASH, 'n']
    else if c == '\r' then [BACKSLASH, 'r']
    else if c == '\t' then [BACKSLASH, 't']
    else if c as int == 8 then [BACKSLASH, 'b']
    else if c as int == 12 then [BACKSLASH, 'f']
    else if Printable(c) then [c]
    else if c as int < 0x1_0000 then [BACKSLASH, 'u'] + Hex4(c as int)
    else
      var v := c as int - 0x1_0000;
      [BACKSLASH, 'u'] + Hex4(0xD800 + v / 1024) + [BACKSLASH, 'u'] + Hex4(0xDC00 + v % 1024)
  }

  function Escaped(text: string): string
  {
    if |text| == 0 then "" else Escape(text[0]) + Escaped(text[1..])
  }

  function DecimalNat(n: nat): string
  {
    if n < 10 then ['0' + n as char] else DecimalNat(n / 10) + ['0' + (n % 10) as char]
  }

  function Decimal(v: int): string { if v < 0 then "-" + DecimalNat(-v) else DecimalNat(v) }

  lemma DigitChar(k: nat)
    requires k < 10
    ensures '0' + k as char == "0123456789"[k]
  {
    assert k == 0 || k == 1 || k == 2 || k == 3 || k == 4 || k == 5 || k == 6 || k == 7 || k == 8 || k == 9;
  }

  /** Decimal digits, as json.dumps writes them, from the last one on. */
  lemma DecimalDigits(n: nat)
    ensures var d := DecimalNat(n);
            && |d| > 0 && d[|d| - 1] == "0123456789"[n % 10]
            && (if n < 10 then |d| == 1 else d[..|d| - 1] == DecimalNat(n / 10))
  {
    DigitChar(n % 10);
  }

  /** Hexadecimal digits are in lower case. */
  lemma HexDigits(n: nat)
    requires n < 16
    ensures HexDigit(n) == "0123456789abcdef"[n]
  {
    if n < 10 {
      DigitChar(n);
    } else {
      assert n == 10 || n == 11 || n == 12 || n == 13 || n == 14 || n == 15;
    }
  }

  // ---- Reading numbers back ----

  lemma {:induction false} DigitsRead(n: nat, rest: string)
    requires |rest| > 0 ==> !IsDigit(rest[0])
    ensures |DecimalNat(n)| > 0 && IsDigit(DecimalNat(n)[0])
    ensures DigitsValue(DecimalNat(n) + rest, 0) == n
  {
    DigitsFrom(n, rest);
    assert DigitsValue(rest, n) == n;
  }

  lemma {:induction false} DigitsFrom(n: nat, rest: string)
    ensures |DecimalNat(n)| > 0 && IsDigit(DecimalNat(n)[0])
    ensures DigitsValue(DecimalNat(n) + rest, 0) == DigitsValue(rest, n)
  {
    if n < 10 {
      var s := DecimalNat(n) + rest;
      assert s[1..] == rest;
    } else {
      var d := ['0' + (n % 10) as char];
      DigitsFrom(n / 10, d + rest);
      assert DecimalNat(n) + rest == DecimalNat(n / 10) + (d + rest);
      assert (d + rest)[1..] == rest;
    }
  }

  lemma SeparatorsSkipped(body: string)
    requires |body| > 0 && body[0] != ':' && body[0] != ' '
    ensures SkipSeparators(": " + body) == body
  {
    var s := ": " + body;
    assert s[1..] == " " + body && (" " + body)[1..] == body;
    assert SkipSeparators(" " + body) == SkipSeparators(body);
  }

  /** A printed number is read back whole, up to the 64-bit limits. */
  lemma NumberRead(v: int, rest: string)
    requires |rest| > 0 && !IsDigit(rest[0])
    ensures IntValue(Some(": " + Decimal(v) + rest), 0) == Clamp(v)
  {
    hide SkipSeparators, DigitsValue, DecimalNat;
    var body := Decimal(v) + rest;
    if v < 0 {
      DigitsRead(-v, rest);
      assert body[1..] == DecimalNat(-v) + rest;
    } else {
      DigitsRead(v, rest);
    }
    SeparatorsSkipped(body);
    assert ": " + Decimal(v) + rest == ": " + body;
    assert SkipSpaces(body) == body;
  }

  /** A plus sign and white space before the digits are passed over, as strtoll does. */
  lemma SignedRead(v: nat, rest: string)
    requires |rest| > 0 ==> !IsDigit(rest[0])
    ensures Strtoll("\t +" + DecimalNat(v) + rest) == Clamp(v)
  {
    hide DigitsValue, DecimalNat;
    var body := DecimalNat(v) + rest;
    var s := "\t +" + DecimalNat(v) + rest;
    assert s[1..] == " +" + body && s[1..][1..] == "+" + body && ("+" + body)[1..] == body;
    assert SkipSpaces("+" + body) == "+" + body;
    assert SkipSpaces(s[1..]) == SkipSpaces("+" + body);
    DigitsRead(v, rest);
  }

  // ---- Reading text back ----

  predicate Plain(c: char) { c != QUOTE && c != BACKSLASH }

  /** What the scanner makes of one printed character. */
  function Recovered(c: char): string
  {
    if Printable(c) || c == '\n' || c == '\t' then [c]
    else if c == '\r' then ""
    else if c as int == 8 then "b"
    else if c as int == 12 then "f"
    else if c as int < 0x1_0000 then "u" + Hex4(c as int)
    else "u" + Hex4(0xD800 + (c as int - 0x1_0000) / 1024) + "u" + Hex4(0xDC00 + (c as int - 0x1_0000) % 1024)
  }

  function RecoveredText(text: string): string
  {
    if |text| == 0 then "" else Recovered(text[0]) + RecoveredText(text[1..])
  }

  lemma HexPlain(n: nat)
    ensures |Hex4(n)| == 4
    ensures forall i :: 0 <= i < 4 ==> Plain(Hex4(n)[i]) && Printable(Hex4(n)[i])
  {
    HexDigitPlain(n / 4096 % 16);
    HexDigitPlain(n / 256 % 16);
    HexDigitPlain(n / 16 % 16);
    HexDigitPlain(n % 16);
  }

  lemma HexDigitPlain(n: nat)
    requires n < 16
    ensures Plain(HexDigit(n)) && Printable(HexDigit(n))
  {
  }

  lemma {:induction false} PlainRun(s: string, rest: string)
    requires forall i :: 0 <= i < |s| ==> Plain(s[i])
    ensures Unescaped(s + rest) == s + Unescaped(rest)
  {
    if |s| == 0 {
      assert s + rest == rest;
    } else {
      PlainRun(s[1..], rest);
      assert (s + rest)[1..] == s[1..] + rest;
    }
  }

  lemma PairRead(s: string, c: char, rest: string)
    requires s == [BACKSLASH, c] + rest
    ensures Unescaped(s) == EscapeMeans(c) + Unescaped(rest)
  {
    assert s[2..] == rest;
  }

  lemma UnicodeRead(n: nat, rest: string)
    ensures Unescaped([BACKSLASH, 'u'] + Hex4(n) + rest) == "u" + Hex4(n) + Unescaped(rest)
  {
    HexPlain(n);
    hide Hex4, Unescaped;
    PlainRun(Hex4(n), rest);
    Associate([BACKSLASH, 'u'], Hex4(n), rest);
    PairRead([BACKSLASH, 'u'] + Hex4(n) + rest, 'u', Hex4(n) + rest);
    Associate("u", Hex4(n), Unescaped(rest));
  }

  lemma Associate(a: string, b: string, c: string)
    ensures (a + b) + c == a + (b + c)
  {
  }

  lemma SurrogatesRead(m: nat, n: nat, rest: string)
    ensures Unescaped([BACKSLASH, 'u'] + Hex4(m) + [BACKSLASH, 'u'] + Hex4(n) + rest)
            == "u" + Hex4(m) + "u" + Hex4(n) + Unescaped(rest)
  {
    hide Hex4, Unescaped;
    var low := [BACKSLASH, 'u'] + Hex4(n);
    UnicodeRead(m, low + rest);
    UnicodeRead(n, rest);
    var high := [BACKSLASH, 'u'] + Hex4(m);
    Associate(high, low, rest);
    Associate(high, [BACKSLASH, 'u'], Hex4(n));
    Associate("u" + Hex4(m), "u" + Hex4(n), Unescaped(rest));
    Associate("u" + Hex4(m), "u", Hex4(n));
  }

  lemma PieceRead(c: char, rest: string)
    ensures Unescaped(Escape(c) + rest) == Recovered(c) + Unescaped(rest)
  {
    hide Hex4, Unescaped;
    if |Escape(c)| == 2 {
      ShortPieceRead(c, rest);
    } else if Printable(c) {
      SinglePiece(c);
      PlainRun([c], rest);
    } else if c as int < 0x1_0000 {
      UnicodeRead(c as int, rest);
    } else {
      var v := c as int - 0x1_0000;
      SurrogatesRead(0xD800 + v / 1024, 0xDC00 + v % 1024, rest);
    }
  }

  lemma ShortPieceRead(c: char, rest: string)
    requires |Escape(c)| == 2
    ensures Unescaped(Escape(c) + rest) == Recovered(c) + Unescaped(rest)
  {
    hide Unescaped;
    var p := Escape(c);
    ShortPiece(c);
    assert p == [BACKSLASH, p[1]];
    PairRead(p + rest, p[1], rest);
  }

  lemma ShortPiece(c: char)
    requires |Escape(c)| == 2
    ensures Escape(c)[0] == BACKSLASH && EscapeMeans(Escape(c)[1]) == Recovered(c)
  {
    if !Printable(c) && c as int < 0x1_0000 {
      HexPlain(c as int);
    }
  }

  lemma SinglePiece(c: char)
    requires |Escape(c)| != 2 && Printable(c)
    ensures Plain(c) && Escape(c) == [c] == Recovered(c)
  {
  }

  lemma {:induction false} TextRead(text: string, rest: string)
    ensures Unescaped(Escaped(text) + [QUOTE] + rest) == RecoveredText(text)
  {
    hide Escape, Recovered;
    if |text| == 0 {
      assert Escaped(text) + [QUOTE] + rest == [QUOTE] + rest;
    } else {
      TextRead(text[1..], rest);
      assert Escaped(text) + [QUOTE] + rest == Escape(text[0]) + (Escaped(text[1..]) + [QUOTE] + rest);
      PieceRead(text[0], Escaped(text[1..]) + [QUOTE] + rest);
    }
  }

  /** The characters that survive the trip. */
  predicate Safe(c: char) { Printable(c) || c == '\n' || c == '\t' }

  predicate AllSafe(text: string) { forall i :: 0 <= i < |text| ==> Safe(text[i]) }

  lemma RecoveredSafe(c: char)
    ensures AllSafe(Recovered(c))
    ensures Safe(c) ==> Recovered(c) == [c]
  {
    if !Safe(c) && c as int >= 0x1_0000 {
      HexPlain(0xD800 + (c as int - 0x1_0000) / 1024);
      HexPlain(0xDC00 + (c as int - 0x1_0000) % 1024);
    } else if !Safe(c) {
      HexPlain(c as int);
    }
  }

  /** Text survives exactly if every character does. */
  lemma {:induction false} TextSurvives(text: string)
    ensures AllSafe(RecoveredText(text))
    ensures AllSafe(text) ==> RecoveredText(text) == text
  {
    hide Recovered;
    if |text| > 0 {
      TextSurvives(text[1..]);
      RecoveredSafe(text[0]);
      if AllSafe(text) {
        assert Safe(text[0]);
      }
    }
  }

  lemma {:induction false} RecoveredLength(text: string)
    ensures |RecoveredText(text)| <= |Escaped(text)|
  {
    if |text| > 0 {
      RecoveredLength(text[1..]);
      PieceLength(text[0]);
    }
  }

  lemma PieceLength(c: char)
    ensures |Recovered(c)| <= |Escape(c)|
  {
  }

  // ---- The log line ----

  /** The escaped text, cut at its quotes. */
  function BodySegs(text: string): (segs: seq<string>)
    ensures |segs| > 0
  {
    if |text| == 0 then [""]
    else
      var rest := BodySegs(text[1..]);
      if text[0] == QUOTE then [[BACKSLASH]] + rest else [Escape(text[0]) + rest[0]] + rest[1..]
  }

  lemma EscapeShape(c: char)
    ensures |Escape(c)| > 0
    ensures c != QUOTE ==> NoQuote(Escape(c))
    ensures c == QUOTE ==> Escape(c) == [BACKSLASH, QUOTE]
    ensures Escape(c)[0] == BACKSLASH || Escape(c) == [c]
  {
    if c as int >= 0x1_0000 {
      HexPlain(0xD800 + (c as int - 0x1_0000) / 1024);
      HexPlain(0xDC00 + (c as int - 0x1_0000) % 1024);
    } else {
      HexPlain(c as int);
    }
  }

  lemma JoinStep(segs: seq<string>)
    requires |segs| > 0
    ensures Join(segs) == if |segs| == 1 then segs[0] else segs[0] + [QUOTE] + Join(segs[1..])
  {
  }

  lemma JoinHead(s: string, head: string, tail: seq<string>)
    ensures Join([s + head] + tail) == s + Join([head] + tail)
  {
    hide Join;
    JoinStep([s + head] + tail);
    JoinStep([head] + tail);
    assert ([s + head] + tail)[1..] == tail && ([head] + tail)[1..] == tail;
    if |tail| > 0 {
      Associate(s, head, [QUOTE] + Join(tail));
      Associate(s + head, [QUOTE], Join(tail));
      Associate(head, [QUOTE], Join(tail));
    }
  }

  lemma QuoteStretch(rest: seq<string>)
    requires |rest| > 0
    ensures Join([[BACKSLASH]] + rest) == [BACKSLASH, QUOTE] + Join(rest)
  {
    hide Join;
    JoinStep([[BACKSLASH]] + rest);
    assert ([[BACKSLASH]] + rest)[1..] == rest;
    assert [BACKSLASH] + [QUOTE] == [BACKSLASH, QUOTE];
  }

  lemma PlainStretch(s: string, rest: seq<string>)
    requires |rest| > 0
    ensures Join([s + rest[0]] + rest[1..]) == s + Join(rest)
  {
    hide Join;
    JoinHead(s, rest[0], rest[1..]);
    assert rest == [rest[0]] + rest[1..];
  }

  lemma BodyStep(text: string)
    requires |text| > 0
    requires Join(BodySegs(text[1..])) == Escaped(text[1..])
    ensures Join(BodySegs(text)) == Escape(text[0]) + Escaped(text[1..])
  {
    hide Escape, Join, Escaped;
    EscapeShape(text[0]);
    QuoteStretch(BodySegs(text[1..]));
    PlainStretch(Escape(text[0]), BodySegs(text[1..]));
  }

  lemma {:induction false} BodyUnquoted(text: string)
    ensures NoQuotes(BodySegs(text))
  {
    hide Escape;
    if |text| > 0 {
      BodyUnquoted(text[1..]);
      EscapeShape(text[0]);
    }
  }

  lemma {:induction false} BodyJoined(text: string)
    ensures Join(BodySegs(text)) == Escaped(text)
  {
    if |text| > 0 {
      BodyJoined(text[1..]);
      hide Escape, Join, BodySegs;
      BodyStep(text);
    }
  }

  /** Every stretch but the last ends in the backslash of an escaped quote. */
  lemma {:induction false} BodyStretches(text: string, j: nat)
    requires j < |BodySegs(text)| - 1
    ensures |BodySegs(text)[j]| > 0 && BodySegs(text)[j][|BodySegs(text)[j]| - 1] == BACKSLASH
  {
    hide Escape;
    var rest := BodySegs(text[1..]);
    if text[0] == QUOTE {
      if j > 0 {
        BodyStretches(text[1..], j - 1);
      }
    } else {
      BodyStretches(text[1..], j);
      if j > 0 {
        assert BodySegs(text)[j] == rest[1..][j - 1];
      }
    }
  }

  /** The text after its last quote. */
  function AfterLastQuote(text: string): string
  {
    if |text| == 0 then ""
    else if QUOTE in text[1..] then AfterLastQuote(text[1..])
    else if text[0] == QUOTE then text[1..]
    else text
  }

  lemma {:induction false} LastStretch(text: string)
    ensures BodySegs(text)[|BodySegs(text)| - 1] == Escaped(AfterLastQuote(text))
    ensures |BodySegs(text)| == 1 <==> QUOTE !in text
  {
    hide Escape;
    if |text| > 0 {
      LastStretch(text[1..]);
      var rest := BodySegs(text[1..]);
      if QUOTE !in text[1..] {
        assert AfterLastQuote(text[1..]) == text[1..] by {
          WholeIfUnquoted(text[1..]);
        }
      }
      if text[0] == QUOTE {
        assert QUOTE in text;
      } else if |rest| > 1 {
        assert QUOTE in text[1..];
      }
    }
  }

  lemma WholeIfUnquoted(text: string)
    requires QUOTE !in text
    ensures AfterLastQuote(text) == text
  {
    if |text| > 0 {
      assert text[0] in text;
    }
  }

  /** A key: lower-case letters, as in every key of the protocol. */
  predicate Word(key: string) { |key| > 0 && forall i :: 0 <= i < |key| ==> 'a' <= key[i] <= 'z' }

  lemma {:induction false} EscapedWord(s: string, key: string)
    requires forall i :: 0 <= i < |key| ==> 'a' <= key[i] <= 'z'
    ensures Escaped(s) == key <==> s == key
  {
    if |s| > 0 && |key| > 0 {
      hide Escape;
      EscapeShape(s[0]);
      EscapedWord(s[1..], key[1..]);
      if Escaped(s) == key {
        assert Escape(s[0])[0] == key[0];
        assert Escape(s[0]) == [s[0]];
        assert key[1..] == Escaped(s[1..]);
        assert s == [s[0]] + s[1..] && key == [key[0]] + key[1..];
      }
      if s == key {
        LetterPiece(s[0]);
        assert Escaped(s) == [s[0]] + Escaped(s[1..]);
      }
    } else if |s| > 0 {
      EscapeShape(s[0]);
    }
  }

  lemma LetterPiece(c: char)
    requires 'a' <= c <= 'z'
    ensures Escape(c) == [c]
  {
  }
}
