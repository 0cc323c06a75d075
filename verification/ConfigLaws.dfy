/** What the text of answers means, said of escapes and of lines and not of the steps of reading it
    (crates/ac-import/src/config.rs). */
module ConfigLaws {
  import opened Base
  import opened Configs

  // ---- escapes ----

  /** A character as it is, or one after a backslash. */
  datatype Token = Literal(c: char) | After(c: char)

  predicate Proper(tokens: seq<Token>) {
    forall i :: 0 <= i < |tokens| && tokens[i].Literal? ==> tokens[i].c != '\\'
  }

  function Written(tokens: seq<Token>): string {
    if tokens == [] then ""
    else (if tokens[0].Literal? then [tokens[0].c] else ['\\', tokens[0].c]) + Written(tokens[1..])
  }

  /** An `n` after a backslash is a line feed, a second backslash is one backslash, and after any other
      character nothing happens: the backslash stays. */
  function Meant(tokens: seq<Token>): string {
    if tokens == [] then ""
    else
      (match tokens[0]
       case Literal(c) => [c]
       case After(c) => if c == 'n' then "\n" else if c == '\\' then "\\" else ['\\', c])
      + Meant(tokens[1..])
  }

  /** Escapes are read from the left, and a backslash at the very end stays. */
  lemma {:induction false} UnescapingReadsTokens(tokens: seq<Token>)
    requires Proper(tokens)
    ensures Unescaped(Written(tokens)) == Meant(tokens)
    ensures Unescaped(Written(tokens) + "\\") == Meant(tokens) + "\\"
  {
    if tokens == [] {
      assert Unescaped("\\") == ['\\'] + Unescaped([]);
    } else {
      UnescapingReadsTokens(tokens[1..]);
      FirstToken(tokens[0], Written(tokens[1..]));
      FirstToken(tokens[0], Written(tokens[1..]) + "\\");
      var front := if tokens[0].Literal? then [tokens[0].c] else ['\\', tokens[0].c];
      assert front + Written(tokens[1..]) + "\\" == front + (Written(tokens[1..]) + "\\");
    }
  }

  lemma FirstToken(token: Token, rest: string)
    requires token.Literal? ==> token.c != '\\'
    ensures Unescaped((if token.Literal? then [token.c] else ['\\', token.c]) + rest)
            == (match token
                case Literal(c) => [c]
                case After(c) => if c == 'n' then "\n" else if c == '\\' then "\\" else ['\\', c])
               + Unescaped(rest)
  {
    var all := (if token.Literal? then [token.c] else ['\\', token.c]) + rest;
    if token.Literal? {
      assert all[1..] == rest;
    } else {
      assert all[2..] == rest;
    }
  }

  /** Every text is such tokens, with a lone backslash at its end or without. */
  lemma {:induction false} EveryTextIsTokens(value: string) returns (tokens: seq<Token>, lone: bool)
    ensures Proper(tokens) && value == Written(tokens) + (if lone then "\\" else "")
    decreases |value|
  {
    if value == "" {
      tokens, lone := [], false;
    } else if value == "\\" {
      tokens, lone := [], true;
    } else {
      var token := if value[0] != '\\' then Literal(value[0]) else After(value[1]);
      var rest := if value[0] != '\\' then value[1..] else value[2..];
      var more;
      more, lone := EveryTextIsTokens(rest);
      tokens := [token] + more;
      assert tokens[1..] == more;
      assert value == (if token.Literal? then [token.c] else ['\\', token.c]) + rest;
    }
  }

  // ---- lines ----

  predicate Blank(s: string) {
    forall i :: 0 <= i < |s| ==> IsSpace(s[i])
  }

  /** The part of a text between the whitespace at its ends. */
  ghost predicate IsInner(s: string, inner: string) {
    exists a, b :: s == a + inner + b && Blank(a) && Blank(b)
      && (inner != "" ==> !IsSpace(inner[0]) && !IsSpace(inner[|inner| - 1]))
  }

  lemma TrimmingTakesTheEnds(s: string)
    ensures IsInner(s, Trim(s)) && (Trim(s) == "" <==> Blank(s))
  {
    var a := TrimmedStart(s);
    var b := TrimmedEnd(TrimStart(s));
    Around(s, a, TrimStart(s), Trim(s), b);
    if Trim(s) != "" {
      TrimEndTwice(TrimStart(s));
    }
  }

  lemma Around(s: string, a: string, start: string, inner: string, b: string)
    requires s == a + start && start == inner + b && Blank(a) && Blank(b)
    requires start != "" ==> !IsSpace(start[0])
    ensures s == a + inner + b
    ensures inner == "" <==> Blank(s)
    ensures inner != "" ==> inner[0] == start[0]
  {
    if inner != "" {
      assert s[|a|] == start[0];
    }
  }

  lemma {:induction false} TrimmedStart(s: string) returns (a: string)
    ensures s == a + TrimStart(s) && Blank(a) && (TrimStart(s) != "" ==> !IsSpace(TrimStart(s)[0]))
  {
    a := "";
    if s != "" && IsSpace(s[0]) {
      var rest := TrimmedStart(s[1..]);
      a := [s[0]] + rest;
      assert s == [s[0]] + s[1..];
    }
  }

  lemma {:induction false} TrimmedEnd(s: string) returns (b: string)
    ensures s == TrimEnd(s) + b && Blank(b)
  {
    b := "";
    if s != "" && IsSpace(s[|s| - 1]) {
      var rest := TrimmedEnd(s[..|s| - 1]);
      b := rest + [s[|s| - 1]];
      assert s == s[..|s| - 1] + [s[|s| - 1]];
    }
  }

  /** Lines one after another, each ended. */
  function Text(lines: seq<string>): string {
    if lines == [] then "" else lines[0] + "\n" + Text(lines[1..])
  }

  predicate OneLine(s: string) {
    '\n' !in s
  }

  /** The answer of a line with an equals sign: what is before the first is the key, what is after it the
      value with its escapes read, both without the whitespace around them. */
  ghost predicate IsAnswer(line: string, answer: (string, string)) {
    exists key, value :: Splits(Trim(line), key, value) && answer == (Trim(key), Unescaped(Trim(value)))
  }

  /** The first equals sign is between the two. */
  predicate Splits(line: string, key: string, value: string) {
    line == key + "=" + value && '=' !in key
  }

  /** Reading line by line: a blank line is passed over, a line without an equals sign is what is wrong, and any
      other gives its answer, before those of the lines after it. */
  ghost predicate ReadAs(lines: seq<string>, r: Result<Fields, string>)
    decreases |lines|
  {
    if lines == [] then r == Ok([])
    else if Blank(lines[0]) then ReadAs(lines[1..], r)
    else if '=' !in lines[0] then r == Err(Trim(lines[0]))
    else if r.Err? then ReadAs(lines[1..], r)
    else r.value != [] && IsAnswer(lines[0], r.value[0]) && ReadAs(lines[1..], Ok(r.value[1..]))
  }

  lemma {:induction false} TextIsReadLineByLine(lines: seq<string>)
    requires forall i :: 0 <= i < |lines| ==> OneLine(lines[i])
    ensures ReadAs(lines, Parsed(Text(lines)))
  {
    if lines != [] {
      var rest := lines[1..];
      assert forall i :: 0 <= i < |rest| ==> rest[i] == lines[i + 1];
      TextIsReadLineByLine(rest);
      ParsedOfFirst(lines[0], Text(rest));
      if !Blank(lines[0]) && '=' in lines[0] && Parsed(Text(rest)).Ok? {
        var fields := Parsed(Text(rest)).value;
        assert ([Answer(Trim(lines[0]))] + fields)[1..] == fields;
      }
    }
  }

  /** What the first line of a text makes of the rest. */
  lemma ParsedOfFirst(line: string, rest: string)
    requires OneLine(line)
    ensures Blank(line) ==> Parsed(line + "\n" + rest) == Parsed(rest)
    ensures !Blank(line) && '=' !in line ==> Parsed(line + "\n" + rest) == Err(Trim(line))
    ensures !Blank(line) && '=' in line ==>
              && Find(Trim(line), '=') < |Trim(line)| && IsAnswer(line, Answer(Trim(line)))
              && Parsed(line + "\n" + rest) == Prefixed([Answer(Trim(line))], Parsed(rest))
  {
    FirstOfText(line, rest);
    TrimmingTakesTheEnds(line);
    TrimKeepsSigns(line);
    if '=' in line {
      AnswersItsLine(line);
    }
  }

  /** The line named in a refusal is the first that is neither blank nor has an equals sign. */
  lemma {:induction false} RefusedForTheFirstBadLine(lines: seq<string>, i: nat)
    requires forall j :: 0 <= j < |lines| ==> OneLine(lines[j])
    requires i < |lines| && !Blank(lines[i]) && '=' !in lines[i]
    requires forall j :: 0 <= j < i ==> Blank(lines[j]) || '=' in lines[j]
    ensures Parsed(Text(lines)) == Err(Trim(lines[i]))
    decreases |lines|
  {
    var rest := lines[1..];
    assert forall j :: 0 <= j < |rest| ==> rest[j] == lines[j + 1];
    ParsedOfFirst(lines[0], Text(rest));
    if i > 0 {
      RefusedForTheFirstBadLine(rest, i - 1);
      assert Parsed(Text(rest)) == Err(Trim(lines[i]));
      RefusalsCarryOver(lines[0], Text(rest), Trim(lines[i]));
    }
  }

  lemma RefusalsCarryOver(line: string, rest: string, bad: string)
    requires OneLine(line) && (Blank(line) || '=' in line) && Parsed(rest) == Err(bad)
    ensures Parsed(line + "\n" + rest) == Err(bad)
  {
    ParsedOfFirst(line, rest);
  }

  lemma FirstOfText(line: string, rest: string)
    requires OneLine(line)
    ensures var raw := line + "\n" + rest;
            FirstLine(raw) == Trim(line) && AfterLine(raw) == rest && raw != ""
  {
    FindFirst(line, '\n', rest);
    var raw := line + ['\n'] + rest;
    assert raw[..|line|] == line && raw[|line| + 1..] == rest;
  }

  lemma TrimKeepsSigns(line: string)
    ensures '=' in Trim(line) <==> '=' in line
  {
    var a := TrimmedStart(line);
    var b := TrimmedEnd(TrimStart(line));
    assert line == a + Trim(line) + b;
    assert forall i :: 0 <= i < |a| ==> IsSpace(a[i]);
    assert forall i :: 0 <= i < |b| ==> IsSpace(b[i]);
    assert '=' !in a && '=' !in b;
  }

  lemma AnswersItsLine(line: string)
    requires '=' in Trim(line)
    ensures Find(Trim(line), '=') < |Trim(line)| && IsAnswer(line, Answer(Trim(line)))
  {
    var t := Trim(line);
    var at := Find(t, '=');
    assert t == t[..at] + [t[at]] + t[at + 1..];
    assert Splits(t, t[..at], t[at + 1..]);
  }

  /** The last line need not be ended. */
  lemma {:induction false} LastLineNeedNotEnd(lines: seq<string>, last: string)
    requires (forall i :: 0 <= i < |lines| ==> OneLine(lines[i])) && OneLine(last)
    ensures Parsed(Text(lines) + last) == Parsed(Text(lines + [last]))
  {
    if lines == [] {
      UnendedLine(last);
      assert [last][1..] == [] && Text([last]) == last + "\n" + "";
      assert Text([]) + last == last && [] + [last] == [last];
    } else {
      var rest := lines[1..];
      assert forall i :: 0 <= i < |rest| ==> rest[i] == lines[i + 1];
      LastLineNeedNotEnd(rest, last);
      TextJoin(lines, last);
      ParsedOfFirst(lines[0], Text(rest) + last);
      ParsedOfFirst(lines[0], Text(rest + [last]));
    }
  }

  lemma TextJoin(lines: seq<string>, last: string)
    requires lines != []
    ensures Text(lines) + last == lines[0] + "\n" + (Text(lines[1..]) + last)
    ensures Text(lines + [last]) == lines[0] + "\n" + Text(lines[1..] + [last])
  {
    Glued(lines[0] + "\n", Text(lines[1..]), last);
    var all := lines + [last];
    assert all[0] == lines[0] && all[1..] == lines[1..] + [last];
  }

  lemma UnendedLine(last: string)
    requires OneLine(last)
    ensures Parsed(last) == Parsed(last + "\n" + "")
  {
    FirstOfText(last, "");
    assert Find(last, '\n') == |last|;
    assert last[..|last|] == last;
    TrimmingTakesTheEnds(last);
  }
}
