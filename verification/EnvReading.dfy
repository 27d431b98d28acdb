/** Which texts the reader of `.env` files accepts and what it reads from them, said from the lines alone. */
module EnvReading {
  import opened Text
  import opened PlanChecks
  import opened EnvText

  /** Nothing but white space, or white space and a comment. */
  ghost predicate Ignored(line: string) {
    exists n: nat :: BlankUpTo(line, n)
  }

  /** White space, by code points. */
  lemma SpaceMeans(c: char)
    ensures EnvText.IsSpace(c) <==>
            var n := c as int;
            || 9 <= n <= 13 || 28 <= n <= 32 || 8192 <= n <= 8202
            || n in {133, 160, 5760, 8232, 8233, 8239, 8287, 12288}
  {
  }

  ghost predicate BlankUpTo(line: string, n: nat) {
    n <= |line| && (forall i :: 0 <= i < n ==> EnvText.IsSpace(line[i])) && (n == |line| || line[n] == '#')
  }

  /** The value of an assignment: what follows the equals sign without one pair of matching outer quotes. */
  ghost predicate Quotes(raw: string, value: string) {
    raw == ['"'] + value + ['"'] || raw == ['\''] + value + ['\'']
  }

  ghost predicate Quoted(raw: string) {
    |raw| >= 2 && raw[0] in {'"', '\''} && raw[|raw| - 1] == raw[0]
  }

  /** A key starts with a capital and goes on with capitals, digits and underscores. */
  lemma KeyMeans(key: string)
    ensures IsKey(key) <==>
            && key != "" && 'A' <= key[0] <= 'Z'
            && forall x :: x in key ==> 'A' <= x <= 'Z' || '0' <= x <= '9' || x == '_'
  {
    if IsKey(key) {
      forall x | x in key ensures 'A' <= x <= 'Z' || '0' <= x <= '9' || x == '_' {
        var i :| 0 <= i < |key| && key[i] == x;
        assert KeyChar(key[i]);
      }
    }
    assert forall i :: 0 <= i < |key| ==> key[i] in key;
  }

  ghost predicate Assigns(line: string, key: string, value: string) {
    && IsKey(key) && !('$' in value || '`' in value || '\0' in value)
    && exists raw :: line == key + ['='] + raw && (if Quoted(raw) then Quotes(raw, value) else value == raw)
  }

  lemma {:induction false} SkippedIsIgnored(line: string)
    ensures Skipped(line) <==> Ignored(line)
  {
    if |line| == 0 {
      assert BlankUpTo(line, 0);
    } else if !EnvText.IsSpace(line[0]) {
      assert TrimLeft(line) == line;
      if line[0] == '#' { assert BlankUpTo(line, 0); }
    } else {
      var rest := line[1..];
      SkippedIsIgnored(rest);
      if n: nat :| BlankUpTo(rest, n) {
        assert forall i :: 1 <= i < |line| ==> line[i] == rest[i - 1];
        assert BlankUpTo(line, n + 1);
      }
      if n: nat :| BlankUpTo(line, n) {
        assert n > 0 && BlankUpTo(rest, n - 1);
      }
    }
  }

  lemma {:induction false} UnquoteMeans(raw: string, value: string)
    ensures Unquote(raw) == value <==> if Quoted(raw) then Quotes(raw, value) else value == raw
  {
    if Quoted(raw) {
      var inner := raw[1..|raw| - 1];
      assert raw == [raw[0]] + inner + [raw[0]];
      if raw == ['"'] + value + ['"'] || raw == ['\''] + value + ['\''] {
        assert raw[1..|raw| - 1] == value;
      }
    }
  }

  lemma {:induction false} LineParts(line: string)
    requires '=' in line
    ensures line == Before(line, '=') + ['='] + After(line, '=') && '=' !in Before(line, '=')
  {
    if line[0] != '=' { LineParts(line[1..]); }
    assert line == [line[0]] + line[1..];
  }

  /** One line that is not ignored: its key and value, or a refusal. */
  lemma {:induction false} LineMeans(line: string, key: string, value: string)
    ensures Assigns(line, key, value) <==>
            && '=' in line && key == Before(line, '=') && IsKey(key)
            && value == Unquote(After(line, '=')) && Plain(value)
  {
    hide Before, After, Unquote, Quoted, Quotes;
    if Assigns(line, key, value) {
      var raw :| line == key + ['='] + raw && (if Quoted(raw) then Quotes(raw, value) else value == raw);
      assert line[|key|] == '=';
      assert '=' !in key;
      PartitionJoined(key, raw, '=');
      UnquoteMeans(raw, value);
    }
    if '=' in line {
      LineParts(line);
      UnquoteMeans(After(line, '='), value);
    }
  }

  ghost predicate Meaningful(line: string) {
    Ignored(line) || exists key, value :: Assigns(line, key, value)
  }

  /** No two of the first n lines assign the same key. */
  ghost predicate OnceEach(lines: seq<string>, n: nat)
    requires n <= |lines|
  {
    forall i, j, key, v, w :: 0 <= i < j < n && Assigns(lines[i], key, v) ==> !Assigns(lines[j], key, w)
  }

  ghost predicate SaysAll(lines: seq<string>, n: nat, values: map<string, string>)
    requires n <= |lines|
  {
    && (forall key :: key in values ==> exists i :: 0 <= i < n && Assigns(lines[i], key, values[key]))
    && (forall i, key, value :: 0 <= i < n && Assigns(lines[i], key, value) ==> key in values && values[key] == value)
  }

  lemma {:induction false} AssignmentIsNotIgnored(line: string, key: string, value: string)
    requires Assigns(line, key, value)
    ensures !Ignored(line)
  {
    assert line[0] == key[0];
  }

  lemma {:induction false} OneValue(line: string, key: string, value: string, key': string, value': string)
    requires Assigns(line, key, value) && Assigns(line, key', value')
    ensures key == key' && value == value'
  {
    hide Assigns;
    LineMeans(line, key, value);
    LineMeans(line, key', value');
  }

  /**
   The reader accepts a text if and only if every line is blank, a comment or a plain assignment and no key is assigned
   twice, and then reads exactly the values assigned.
   */
  lemma {:induction false} ReadMeans(lines: seq<string>, n: nat)
    requires n <= |lines|
    ensures ReadLines(lines, n).Ok? <==> (forall i :: 0 <= i < n ==> Meaningful(lines[i])) && OnceEach(lines, n)
    ensures ReadLines(lines, n).Ok? ==> SaysAll(lines, n, ReadLines(lines, n).value)
  {
    hide Assigns, Ignored, ReadLine;
    if n > 0 {
      ReadMeans(lines, n - 1);
      if ReadLines(lines, n - 1).Ok? {
        NextLine(lines, n, ReadLines(lines, n - 1).value);
      }
    }
  }

  lemma {:induction false} NextLine(lines: seq<string>, n: nat, values: map<string, string>)
    requires 0 < n <= |lines| && (forall i :: 0 <= i < n - 1 ==> Meaningful(lines[i])) && OnceEach(lines, n - 1)
    requires SaysAll(lines, n - 1, values)
    ensures ReadLine(values, lines[n - 1]).Ok? <==> Meaningful(lines[n - 1]) && OnceEach(lines, n)
    ensures ReadLine(values, lines[n - 1]).Ok? ==> SaysAll(lines, n, ReadLine(values, lines[n - 1]).value)
  {
    hide Assigns, Ignored, Skipped, Before, After, Unquote, IsKey, Plain;
    var line := lines[n - 1];
    SkippedIsIgnored(line);
    if Ignored(line) {
      forall key, value ensures !Assigns(line, key, value) {
        if Assigns(line, key, value) { AssignmentIsNotIgnored(line, key, value); }
      }
    } else {
      var key, value := Before(line, '='), Unquote(After(line, '='));
      LineMeans(line, key, value);
      forall k, v | Assigns(line, k, v) ensures k == key && v == value && Assigns(line, key, value) {
        LineMeans(line, k, v);
      }
      if Assigns(line, key, value) && key in values {
        var i :| 0 <= i < n - 1 && Assigns(lines[i], key, values[key]);
      }
    }
  }

  // ---------------------------------------------------------------- lines

  /** The characters that end a line. */
  lemma BreakMeans(c: char)
    ensures IsBreak(c) <==>
            c in {'\n', '\U{000B}', '\U{000C}', '\r', '\U{001C}', '\U{001D}', '\U{001E}', '\U{0085}', '\U{2028}',
                  '\U{2029}'}
  {
  }

  /** What closes a line: CR LF, one line break, or the end of the text. */
  ghost predicate Closes(line: string, end: string, rest: string) {
    || end == "\r\n"
    || (|end| == 1 && IsBreak(end[0]) && !(end == "\r" && |rest| > 0 && rest[0] == '\n'))
    || (end == "" && rest == "" && line != "")
  }

  /** The lines and what closes them make up the text, and no line holds a line break. */
  ghost predicate Divided(s: string, lines: seq<string>)
    decreases |lines|
  {
    if |lines| == 0 then s == ""
    else
      Unbroken(lines[0]) &&
      exists end, rest :: s == lines[0] + end + rest && Closes(lines[0], end, rest) && Divided(rest, lines[1..])
  }

  lemma {:induction false} DividedStep(line: string, end: string, rest: string, lines: seq<string>)
    requires Unbroken(line) && Closes(line, end, rest) && Divided(rest, lines)
    ensures Divided(line + end + rest, [line] + lines)
  {
    hide Unbroken, Closes;
    assert ([line] + lines)[1..] == lines;
  }

  lemma {:induction false} SplitDivides(s: string)
    ensures Divided(s, SplitLines(s))
    decreases |s|
  {
    hide FirstBreak, IsBreak, Unbroken, Divided;
    if |s| == 0 {
      NothingDivided();
    } else {
      var n := FirstBreak(s);
      if n == |s| {
        NothingDivided();
        DividedStep(s[..n], "", "", []);
        assert s[..n] + "" + "" == s && [s[..n]] + [] == SplitLines(s);
      } else {
        var width := if s[n] == '\r' && n + 1 < |s| && s[n + 1] == '\n' then 2 else 1;
        var end, rest := s[n..n + width], s[n + width..];
        SplitDivides(rest);
        assert |rest| > 0 ==> rest[0] == s[n + width];
        DividedStep(s[..n], end, rest, SplitLines(rest));
        assert s == s[..n] + end + rest;
      }
    }
  }

  lemma NothingDivided()
    ensures Divided("", []) && SplitLines("") == []
  {
  }
}
