/** Answers written down as `key = value` lines and read back (crates/ac-import/src/config.rs). */
module Configs {
  import opened Base

  type Fields = seq<(string, string)>

  /** Unicode's White_Space property. */
  predicate IsSpace(c: char) {
    var n := c as int;
    0x09 <= n <= 0x0D || n == 0x20 || n == 0x85 || n == 0xA0 || n == 0x1680 || 0x2000 <= n <= 0x200A
    || n == 0x2028 || n == 0x2029 || n == 0x202F || n == 0x205F || n == 0x3000
  }

  function TrimStart(s: string): string {
    if s != "" && IsSpace(s[0]) then TrimStart(s[1..]) else s
  }

  function TrimEnd(s: string): string {
    if s != "" && IsSpace(s[|s| - 1]) then TrimEnd(s[..|s| - 1]) else s
  }

  function Trim(s: string): string {
    TrimEnd(TrimStart(s))
  }

  function Replaced(s: string, c: char, text: string): string {
    if s == "" then "" else (if s[0] == c then text else [s[0]]) + Replaced(s[1..], c, text)
  }

  function Escaped(value: string): string {
    Replaced(Replaced(value, '\\', "\\\\"), '\n', "\\n")
  }

  function Unescaped(value: string): string {
    if value == "" then ""
    else if value[0] != '\\' || |value| == 1 then [value[0]] + Unescaped(value[1..])
    else if value[1] == 'n' then "\n" + Unescaped(value[2..])
    else if value[1] == '\\' then "\\" + Unescaped(value[2..])
    else ['\\', value[1]] + Unescaped(value[2..])
  }

  function Line(key: string, value: string): string {
    key + " = " + Escaped(value)
  }

  function Encoded(fields: Fields): string {
    if fields == [] then "" else Line(fields[0].0, fields[0].1) + "\n" + Encoded(fields[1..])
  }

  /** Where a character first is, or the length. */
  function Find(s: string, c: char): (i: nat)
    ensures i <= |s| && c !in s[..i] && (i < |s| ==> s[i] == c)
  {
    if s == "" || s[0] == c then 0 else
      assert s[..1 + Find(s[1..], c)] == [s[0]] + s[1..][..Find(s[1..], c)];
      1 + Find(s[1..], c)
  }

  function FirstLine(raw: string): string {
    Trim(raw[..Find(raw, '\n')])
  }

  /** What is after the first line. */
  function AfterLine(raw: string): string {
    if Find(raw, '\n') == |raw| then "" else raw[Find(raw, '\n') + 1..]
  }

  /** The answers of the lines, blank ones aside, or the first line that answers nothing. A carriage
      return at the end of a line goes with the trimming. */
  function Parsed(raw: string): Result<Fields, string>
    decreases |raw|
  {
    if raw == "" then Ok([])
    else
      var line := FirstLine(raw);
      if line == "" then Parsed(AfterLine(raw))
      else if Find(line, '=') == |line| then Err(line)
      else Prefixed([Answer(line)], Parsed(AfterLine(raw)))
  }

  function Prefixed(fields: Fields, r: Result<Fields, string>): Result<Fields, string> {
    match r
    case Ok(rest) => Ok(fields + rest)
    case Err(bad) => Err(bad)
  }

  lemma PrefixedTwice(fields: Fields, answer: (string, string), r: Result<Fields, string>)
    ensures Prefixed(fields + [answer], r) == Prefixed(fields, Prefixed([answer], r))
    ensures Prefixed([], r) == r
    ensures Prefixed(fields, Ok([])) == Ok(fields)
  {
    if r.Ok? {
      assert fields + [answer] + r.value == fields + ([answer] + r.value);
      assert [] + r.value == r.value;
    }
    assert fields + [] == fields;
  }

  function Answer(line: string): (string, string)
    requires Find(line, '=') < |line|
  {
    (Trim(line[..Find(line, '=')]), Unescaped(Trim(line[Find(line, '=') + 1..])))
  }

  // ---- the running code ----

  lemma Glued(a: string, b: string, c: string)
    ensures a + (b + c) == (a + b) + c
  {
  }

  method Unescape(value: string) returns (out: string)
    ensures out == Unescaped(value)
  {
    out := "";
    var chars := value;
    while chars != ""
      invariant out + Unescaped(chars) == Unescaped(value)
      decreases |chars|
    {
      var c := chars[0];
      if c != '\\' || |chars| == 1 {
        Glued(out, [c], Unescaped(chars[1..]));
        out, chars := out + [c], chars[1..];
        continue;
      }
      var other := chars[1];
      var piece := if other == 'n' then "\n" else if other == '\\' then "\\" else ['\\', other];
      assert Unescaped(chars) == piece + Unescaped(chars[2..]);
      Glued(out, piece, Unescaped(chars[2..]));
      out, chars := out + piece, chars[2..];
    }
  }

  method ParseLine(line: string) returns (answer: (string, string))
    requires Find(line, '=') < |line|
    ensures answer == Answer(line)
  {
    var at := Find(line, '=');
    var value := Unescape(Trim(line[at + 1..]));
    return (Trim(line[..at]), value);
  }

  method Parse(raw: string) returns (r: Result<Fields, string>)
    ensures r == Parsed(raw)
  {
    var fields: Fields := [];
    var left := raw;
    PrefixedTwice([], ("", ""), Parsed(raw));
    while left != ""
      invariant Prefixed(fields, Parsed(left)) == Parsed(raw)
      decreases |left|
    {
      var line := FirstLine(left);
      ghost var was := left;
      left := AfterLine(left);
      if line == "" {
        assert Parsed(was) == Parsed(left);
        continue;
      }
      if Find(line, '=') == |line| {
        assert Parsed(was) == Err(line);
        return Err(line);
      }
      assert Parsed(was) == Prefixed([Answer(line)], Parsed(left));
      PrefixedTwice(fields, Answer(line), Parsed(left));
      var answer := ParseLine(line);
      fields := fields + [answer];
    }
    PrefixedTwice(fields, ("", ""), Ok([]));
    return Ok(fields);
  }

  // ---- escaping ----

  function Escape1(c: char): string {
    if c == '\\' then "\\\\" else if c == '\n' then "\\n" else [c]
  }

  /** The two replacements come to one pass over the characters. */
  lemma {:induction false} EscapedFirst(value: string)
    requires value != ""
    ensures Escaped(value) == Escape1(value[0]) + Escaped(value[1..])
  {
    var head := if value[0] == '\\' then "\\\\" else [value[0]];
    ReplacedJoin(head, Replaced(value[1..], '\\', "\\\\"), '\n', "\\n");
    assert Replaced(value, '\\', "\\\\") == head + Replaced(value[1..], '\\', "\\\\");
    if value[0] == '\\' {
      assert head == ['\\'] + ['\\'] && head[1..] == ['\\'];
      assert Replaced(['\\'], '\n', "\\n") == ['\\'] + Replaced([], '\n', "\\n");
    } else {
      assert head[1..] == [];
    }
  }

  lemma {:induction false} ReplacedJoin(a: string, b: string, c: char, text: string)
    ensures Replaced(a + b, c, text) == Replaced(a, c, text) + Replaced(b, c, text)
  {
    if a == "" {
      assert a + b == b;
    } else {
      assert (a + b)[1..] == a[1..] + b;
      ReplacedJoin(a[1..], b, c, text);
    }
  }

  lemma UnescapedFirst(c: char, rest: string)
    ensures Unescaped(Escape1(c) + rest) == [c] + Unescaped(rest)
  {
    var all := Escape1(c) + rest;
    if c == '\\' || c == '\n' {
      assert all[2..] == rest;
    } else {
      assert all[1..] == rest;
    }
  }

  /** What is escaped comes back whole, whatever it holds, and takes no second line. */
  lemma {:induction false} UnescapedEscaped(value: string)
    ensures Unescaped(Escaped(value)) == value && '\n' !in Escaped(value)
  {
    if value != "" {
      EscapedFirst(value);
      UnescapedEscaped(value[1..]);
      UnescapedFirst(value[0], Escaped(value[1..]));
      assert value == [value[0]] + value[1..];
    }
  }

  lemma EscapedJoin(a: string, b: string)
    ensures Escaped(a + b) == Escaped(a) + Escaped(b)
  {
    ReplacedJoin(a, b, '\\', "\\\\");
    ReplacedJoin(Replaced(a, '\\', "\\\\"), Replaced(b, '\\', "\\\\"), '\n', "\\n");
  }

  // ---- trimming ----

  lemma {:induction false} TrimStartJoin(a: string, b: string)
    ensures TrimStart(a + b) == if TrimStart(a) == "" then TrimStart(b) else TrimStart(a) + b
  {
    if a == "" {
      assert a + b == b;
    } else if IsSpace(a[0]) {
      assert (a + b)[1..] == a[1..] + b;
      TrimStartJoin(a[1..], b);
    }
  }

  lemma {:induction false} TrimEndJoin(a: string, b: string)
    ensures TrimEnd(a + b) == if TrimEnd(b) == "" then TrimEnd(a) else a + TrimEnd(b)
  {
    if b == "" {
      assert a + b == a;
    } else if IsSpace(b[|b| - 1]) {
      assert (a + b)[..|a + b| - 1] == a + b[..|b| - 1];
      TrimEndJoin(a, b[..|b| - 1]);
    }
  }

  lemma {:induction false} TrimEndTwice(s: string)
    ensures TrimEnd(TrimEnd(s)) == TrimEnd(s) && |TrimEnd(s)| <= |s|
    ensures TrimEnd(s) == "" || !IsSpace(TrimEnd(s)[|TrimEnd(s)| - 1])
  {
    if s != "" && IsSpace(s[|s| - 1]) {
      TrimEndTwice(s[..|s| - 1]);
    }
  }

  lemma {:induction false} TrimEndOfSpace(s: string)
    requires s != "" && IsSpace(s[0])
    ensures TrimEnd(s) == if TrimEnd(s[1..]) == "" then "" else [s[0]] + TrimEnd(s[1..])
  {
    assert s == [s[0]] + s[1..];
    TrimEndJoin([s[0]], s[1..]);
    assert [s[0]][..0] == "";
  }

  /** The two ends are trimmed independently. */
  lemma {:induction false} TrimsCommute(s: string)
    ensures TrimStart(TrimEnd(s)) == TrimEnd(TrimStart(s))
  {
    if s != "" {
      if IsSpace(s[0]) {
        TrimsCommute(s[1..]);
        TrimEndOfSpace(s);
        if TrimEnd(s[1..]) != "" {
          assert TrimEnd(s)[1..] == TrimEnd(s[1..]);
        }
      } else {
        assert s == [s[0]] + s[1..];
        TrimEndJoin([s[0]], s[1..]);
      }
    }
  }

  // ---- one line ----

  /** A key that a line can hold: no `=` or line feed in it, no whitespace around it. */
  predicate Plain(key: string) {
    '=' !in key && '\n' !in key && Trim(key) == key
  }

  lemma {:induction false} TrimmedEnds(s: string)
    requires Trim(s) == s && s != ""
    ensures !IsSpace(s[0]) && !IsSpace(s[|s| - 1]) && TrimStart(s) == s && TrimEnd(s) == s
  {
    TrimStartShorter(s);
    TrimStartShorter(s[1..]);
    TrimEndTwice(TrimStart(s));
  }

  lemma {:induction false} TrimStartShorter(s: string)
    ensures |TrimStart(s)| <= |s| && (|TrimStart(s)| == |s| ==> TrimStart(s) == s)
  {
    if s != "" && IsSpace(s[0]) {
      TrimStartShorter(s[1..]);
    }
  }

  lemma {:induction false} FindFirst(a: string, c: char, b: string)
    requires c !in a
    ensures Find(a + [c] + b, c) == |a|
  {
    var s := a + [c] + b;
    var i := Find(s, c);
    assert s[|a|] == c;
    forall k | 0 <= k < i ensures s[k] != c {
      assert s[..i][k] == s[k];
    }
    assert forall k :: 0 <= k < |a| ==> s[k] == a[k];
  }

  /** A written line, trimmed, is the key, the sign, and what is left of the value at its end. */
  lemma TrimmedLine(key: string, value: string)
    requires Plain(key)
    ensures var tail := TrimEnd(" " + Escaped(value));
            Trim(Line(key, value)) == (if key == "" then "" else key + " ") + "=" + tail
  {
    var all := " " + Escaped(value);
    if key == "" {
      assert Line(key, value) == " " + ("=" + all);
      TrimAfterSpace("=" + all);
      TrimAfter("=", all);
    } else {
      TrimmedEnds(key);
      assert Line(key, value) == (key + " =") + all;
      TrimAfter(key + " =", all);
      assert key + " =" == key + " " + "=";
    }
  }

  lemma TrimAfterSpace(s: string)
    ensures Trim(" " + s) == Trim(s)
  {
    TrimStartJoin(" ", s);
    assert " "[1..] == "";
  }

  lemma TrimAfter(front: string, all: string)
    requires front != "" && !IsSpace(front[0]) && !IsSpace(front[|front| - 1])
    ensures Trim(front + all) == front + TrimEnd(all)
  {
    TrimStartJoin(front, all);
    TrimEndJoin(front, all);
  }

  /** Whitespace that is lost at the ends of a value: a line feed there is not, being escaped. */
  predicate Lost(c: char) {
    IsSpace(c) && c != '\n'
  }

  function KeptStart(value: string): string {
    if value != "" && Lost(value[0]) then KeptStart(value[1..]) else value
  }

  function KeptEnd(value: string): string {
    if value != "" && Lost(value[|value| - 1]) then KeptEnd(value[..|value| - 1]) else value
  }

  function Kept(value: string): string {
    KeptEnd(KeptStart(value))
  }

  lemma {:induction false} TrimStartEscaped(value: string)
    ensures TrimStart(Escaped(value)) == Escaped(KeptStart(value))
  {
    if value != "" {
      EscapedFirst(value);
      if Lost(value[0]) {
        TrimStartEscaped(value[1..]);
        assert Escaped(value)[1..] == Escaped(value[1..]);
      }
    }
  }

  lemma {:induction false} TrimEndEscaped(value: string)
    ensures TrimEnd(Escaped(value)) == Escaped(KeptEnd(value))
  {
    if value != "" {
      var front, last := value[..|value| - 1], value[|value| - 1];
      assert value == front + [last];
      EscapedJoin(front, [last]);
      EscapedFirst([last]);
      assert Escaped([last]) == Escape1(last);
      if Lost(last) {
        TrimEndEscaped(front);
        assert Escaped(value)[..|Escaped(value)| - 1] == Escaped(front);
      }
    }
  }

  /** A written line reads back as its key and what is kept of its value. */
  lemma AnswerOfLine(key: string, value: string)
    requires Plain(key)
    ensures var line := Trim(Line(key, value));
            line != "" && Find(line, '=') < |line| && Answer(line) == (key, Kept(value))
  {
    var line := Trim(Line(key, value));
    var front := if key == "" then "" else key + " ";
    var tail := TrimEnd(" " + Escaped(value));
    TrimmedLine(key, value);
    FindFirst(front, '=', tail);
    assert line[..|front|] == front && line[|front| + 1..] == tail;
    TrimmedFront(key);
    TrimmedTail(Escaped(value));
    TrimStartEscaped(value);
    TrimEndEscaped(KeptStart(value));
    UnescapedEscaped(Kept(value));
  }

  lemma TrimmedFront(key: string)
    requires Plain(key)
    ensures Trim(key + " ") == key && Trim("") == ""
  {
    TrimEndJoin(key, " ");
    assert " "[..0] == "";
    TrimsCommute(key + " ");
    if key != "" {
      TrimmedEnds(key);
      TrimStartJoin(key, " ");
    } else {
      assert key + " " == " ";
    }
  }

  lemma TrimmedTail(s: string)
    ensures Trim(TrimEnd(" " + s)) == Trim(s)
  {
    TrimsCommute(" " + s);
    TrimAfterSpace(s);
    TrimEndTwice(TrimStart(" " + s));
  }

  // ---- whole configurations ----

  function KeptFields(fields: Fields): Fields {
    if fields == [] then [] else [(fields[0].0, Kept(fields[0].1))] + KeptFields(fields[1..])
  }

  ghost predicate PlainKeys(fields: Fields) {
    forall i :: 0 <= i < |fields| ==> Plain(fields[i].0)
  }

  /** With plain keys, what is written reads back as the same answers in the same order, less the
      whitespace at the ends of values. */
  lemma {:induction false} EncodedParses(fields: Fields)
    requires PlainKeys(fields)
    ensures Parsed(Encoded(fields)) == Ok(KeptFields(fields))
  {
    if fields != [] {
      var (key, value) := fields[0];
      assert PlainKeys(fields[1..]) by {
        assert forall i :: 0 <= i < |fields| - 1 ==> fields[1..][i] == fields[i + 1];
      }
      EncodedParses(fields[1..]);
      var line, rest := Line(key, value), Encoded(fields[1..]);
      var raw := Encoded(fields);
      assert raw == line + ['\n'] + rest;
      UnescapedEscaped(value);
      FindFirst(line, '\n', rest);
      assert raw[..|line|] == line && AfterLine(raw) == rest;
      AnswerOfLine(key, value);
    }
  }

  /** Keys that were read are plain. */
  lemma {:induction false} ParsedKeysArePlain(raw: string)
    ensures Parsed(raw).Ok? ==> PlainKeys(Parsed(raw).value)
    decreases |raw|
  {
    if raw != "" {
      ParsedKeysArePlain(AfterLine(raw));
      var text := raw[..Find(raw, '\n')];
      var line := Trim(text);
      if line != "" && Find(line, '=') < |line| {
        var front := line[..Find(line, '=')];
        TrimIsPart(text);
        TrimIsPart(front);
        TrimTwice(front);
        assert forall c :: c in front ==> c in line;
      }
    }
  }

  lemma {:induction false} TrimIsPart(s: string)
    ensures forall c :: c in Trim(s) ==> c in s
  {
    TrimStartIsPart(s);
    TrimEndIsPart(TrimStart(s));
  }

  lemma {:induction false} TrimStartIsPart(s: string)
    ensures forall c :: c in TrimStart(s) ==> c in s
  {
    if s != "" && IsSpace(s[0]) {
      TrimStartIsPart(s[1..]);
    }
  }

  lemma {:induction false} TrimEndIsPart(s: string)
    ensures forall c :: c in TrimEnd(s) ==> c in s
  {
    if s != "" && IsSpace(s[|s| - 1]) {
      TrimEndIsPart(s[..|s| - 1]);
    }
  }

  lemma TrimTwice(s: string)
    ensures Trim(Trim(s)) == Trim(s)
  {
    TrimsCommute(s);
    TrimStartTwice(TrimEnd(s));
    TrimEndTwice(TrimStart(s));
  }

  lemma {:induction false} TrimStartTwice(s: string)
    ensures TrimStart(TrimStart(s)) == TrimStart(s)
  {
    if s != "" && IsSpace(s[0]) {
      TrimStartTwice(s[1..]);
    }
  }

  /** No whitespace but a line feed at either end. */
  predicate EndsKept(value: string) {
    value != "" ==> !Lost(value[0]) && !Lost(value[|value| - 1])
  }

  lemma {:induction false} KeptShorter(value: string)
    ensures Kept(value) == value <==> EndsKept(value)
  {
    if value != "" {
      KeptStartShorter(value);
      KeptEndShorter(KeptStart(value));
    }
  }

  lemma {:induction false} KeptStartShorter(value: string)
    ensures |KeptStart(value)| <= |value| && (value != "" && Lost(value[0]) ==> |KeptStart(value)| < |value|)
  {
    if value != "" && Lost(value[0]) {
      KeptStartShorter(value[1..]);
    }
  }

  lemma {:induction false} KeptEndShorter(value: string)
    ensures |KeptEnd(value)| <= |value| && (value != "" && Lost(value[|value| - 1]) ==> |KeptEnd(value)| < |value|)
  {
    if value != "" && Lost(value[|value| - 1]) {
      KeptEndShorter(value[..|value| - 1]);
    }
  }

  lemma {:induction false} KeptFieldsAt(fields: Fields, i: nat)
    requires i < |fields|
    ensures |KeptFields(fields)| == |fields| && KeptFields(fields)[i] == (fields[i].0, Kept(fields[i].1))
  {
    if |fields| > 1 {
      KeptFieldsAt(fields[1..], if i > 0 then i - 1 else 0);
    }
  }

  lemma KeptFieldsSame(fields: Fields)
    ensures KeptFields(fields) == fields <==> forall i :: 0 <= i < |fields| ==> EndsKept(fields[i].1)
  {
    forall i | 0 <= i < |fields| ensures |KeptFields(fields)| == |fields|
                                 && (KeptFields(fields)[i] == fields[i] <==> EndsKept(fields[i].1)) {
      KeptFieldsAt(fields, i);
      KeptShorter(fields[i].1);
    }
    assert fields == [] ==> KeptFields(fields) == fields;
    assert |KeptFields(fields)| == |fields|;
  }

  /** Writing and reading back gives the same answers exactly when every key is plain and no value has
      whitespace, line feeds aside, at either end. */
  lemma RoundTripsExactly(fields: Fields)
    ensures Parsed(Encoded(fields)) == Ok(fields)
            <==> forall i :: 0 <= i < |fields| ==> Plain(fields[i].0) && EndsKept(fields[i].1)
  {
    if PlainKeys(fields) {
      EncodedParses(fields);
      KeptFieldsSame(fields);
    } else {
      ParsedKeysArePlain(Encoded(fields));
    }
  }
}
