/**
 The `.env` text of a package: how scripts/environmentctl.py writes it and how
 scripts/deploy-environment.py reads it back, as two independent pieces of code.
 */
module EnvText {
  import opened Text
  import opened PlanChecks

  datatype Pair = Pair(key: string, value: string)

  /** Characters at which str.splitlines ends a line. */
  predicate IsBreak(c: char) {
    '\n' <= c <= '\r' || '\U{001C}' <= c <= '\U{001E}' || c == '\U{0085}' || c == '\U{2028}' || c == '\U{2029}'
  }

  predicate Unbroken(s: string) {
    forall i :: 0 <= i < |s| ==> !IsBreak(s[i])
  }

  function FirstBreak(s: string): (n: nat)
    ensures n <= |s| && Unbroken(s[..n]) && (n < |s| ==> IsBreak(s[n]))
  {
    if |s| == 0 || IsBreak(s[0]) then 0
    else
      var n := FirstBreak(s[1..]);
      assert s[..n + 1] == [s[0]] + s[1..][..n];
      n + 1
  }

  /** str.splitlines: CR LF counts once, and a final line break opens no further line. */
  function SplitLines(s: string): (lines: seq<string>)
    ensures forall i :: 0 <= i < |lines| ==> Unbroken(lines[i])
    decreases |s|
  {
    if |s| == 0 then []
    else
      var n := FirstBreak(s);
      if n == |s| then [s[..n]]
      else
        var width := if s[n] == '\r' && n + 1 < |s| && s[n + 1] == '\n' then 2 else 1;
        [s[..n]] + SplitLines(s[n + width..])
  }

  /** Characters that str.strip removes. */
  predicate IsSpace(c: char) {
    || '\t' <= c <= '\r' || '\U{001C}' <= c <= ' ' || c == '\U{0085}' || c == '\U{00A0}' || c == '\U{1680}'
    || '\U{2000}' <= c <= '\U{200A}' || c == '\U{2028}' || c == '\U{2029}' || c == '\U{202F}' || c == '\U{205F}'
    || c == '\U{3000}'
  }

  function TrimLeft(s: string): string {
    if |s| == 0 || !IsSpace(s[0]) then s else TrimLeft(s[1..])
  }

  /** Blank lines and comments carry no assignment. */
  predicate Skipped(line: string) {
    TrimLeft(line) == "" || TrimLeft(line)[0] == '#'
  }

  predicate KeyChar(c: char) {
    'A' <= c <= 'Z' || '0' <= c <= '9' || c == '_'
  }

  predicate IsKey(s: string) {
    |s| > 0 && Upper(s[0]) && forall i :: 0 <= i < |s| ==> KeyChar(s[i])
  }

  /** One pair of matching outer quotes is dropped. */
  function Unquote(v: string): string {
    if |v| >= 2 && (v[0] == '"' || v[0] == '\'') && v[|v| - 1] == v[0] then v[1..|v| - 1] else v
  }

  predicate Plain(v: string) {
    '$' !in v && '`' !in v && '\0' !in v
  }

  // ---------------------------------------------------------------- reading

  function ReadLine(values: map<string, string>, line: string): Result<map<string, string>> {
    if Skipped(line) then Ok(values)
    else
      var key, value := Before(line, '='), Unquote(After(line, '='));
      if '=' !in line || !IsKey(key) then Refused("plain KEY=value assignments only")
      else if key in values then Refused("duplicate assignment")
      else if !Plain(value) then Refused("substitutions are not allowed")
      else Ok(values[key := value])
  }

  function ReadLines(lines: seq<string>, n: nat): Result<map<string, string>>
    requires n <= |lines|
  {
    if n == 0 then Ok(map[])
    else
      var values :- ReadLines(lines, n - 1);
      ReadLine(values, lines[n - 1])
  }

  method ReadEnvironment(text: string) returns (r: Result<map<string, string>>)
    ensures r.Ok? <==> ReadLines(SplitLines(text), |SplitLines(text)|).Ok?
    ensures r.Ok? ==> r == ReadLines(SplitLines(text), |SplitLines(text)|)
  {
    hide SplitLines, ReadLine;
    var lines := SplitLines(text);
    var values: map<string, string> := map[];
    for i := 0 to |lines|
      invariant ReadLines(lines, i) == Ok(values)
    {
      var next := ReadLine(values, lines[i]);
      if next.Refused? {
        RefusalStays(lines, i + 1, |lines|);
        return Refused(next.reason);
      }
      values := next.value;
    }
    r := Ok(values);
  }

  lemma {:induction false} RefusalStays(lines: seq<string>, n: nat, m: nat)
    requires n <= m <= |lines| && ReadLines(lines, n).Refused?
    ensures ReadLines(lines, m).Refused?
  {
    hide ReadLine;
    if n < m { RefusalStays(lines, n, m - 1); }
  }

  // ---------------------------------------------------------------- writing

  const HEADER: string := "# Generated FND-003 " + "instance; contains " + "private credentials."

  function Assignment(p: Pair): string {
    p.key + ['='] + p.value
  }

  function Assignments(pairs: seq<Pair>): seq<string> {
    seq(|pairs|, i requires 0 <= i < |pairs| => Assignment(pairs[i]))
  }

  /** "\n".join(lines) */
  function Joined(lines: seq<string>): string {
    if |lines| == 0 then "" else if |lines| == 1 then lines[0] else lines[0] + "\n" + Joined(lines[1..])
  }

  function EnvironmentText(pairs: seq<Pair>): string {
    HEADER + "\n" + (Joined(Assignments(pairs)) + "\n")
  }

  // ---------------------------------------------------------------- the round trip

  lemma {:induction false} FirstBreakIs(s: string, n: nat)
    requires n < |s| && IsBreak(s[n]) && Unbroken(s[..n])
    ensures FirstBreak(s) == n
  {
    if n > 0 {
      assert s[..n][0] == s[0];
      assert s[1..][..n - 1] == s[..n][1..];
      FirstBreakIs(s[1..], n - 1);
    }
  }

  /** A line followed by LF is split off whole. */
  lemma {:induction false} SplitFirstLine(line: string, rest: string)
    requires Unbroken(line)
    ensures SplitLines(line + "\n" + rest) == [line] + SplitLines(rest)
  {
    var s := line + "\n" + rest;
    assert s[..|line|] == line && s[|line|] == '\n' && s[|line| + 1..] == rest;
    FirstBreakIs(s, |line|);
  }

  lemma {:induction false} SplitJoined(lines: seq<string>)
    requires |lines| > 0 && forall i :: 0 <= i < |lines| ==> Unbroken(lines[i])
    ensures SplitLines(Joined(lines) + "\n") == lines
  {
    if |lines| == 1 {
      assert Joined(lines) + "\n" == lines[0] + "\n" + "";
      SplitFirstLine(lines[0], "");
      assert SplitLines("") == [];
    } else {
      SplitJoined(lines[1..]);
      assert Joined(lines) + "\n" == lines[0] + "\n" + (Joined(lines[1..]) + "\n");
      SplitFirstLine(lines[0], Joined(lines[1..]) + "\n");
    }
  }

  /** What the writer is allowed to write: distinct keys, and values that neither break lines nor substitute. */
  ghost predicate Writable(pairs: seq<Pair>) {
    && (forall i :: 0 <= i < |pairs| ==> IsKey(pairs[i].key) && Unbroken(pairs[i].value) && Plain(pairs[i].value))
    && (forall i, j :: 0 <= i < j < |pairs| ==> pairs[i].key != pairs[j].key)
  }

  ghost function AsMap(pairs: seq<Pair>): map<string, string> {
    if |pairs| == 0 then map[]
    else
      var last := pairs[|pairs| - 1];
      AsMap(pairs[..|pairs| - 1])[last.key := last.value]
  }

  ghost function Unquoted(values: map<string, string>): map<string, string> {
    map k | k in values :: Unquote(values[k])
  }

  lemma {:induction false} AssignmentReadsBack(p: Pair, values: map<string, string>)
    requires IsKey(p.key) && Plain(p.value) && p.key !in values
    ensures ReadLine(values, Assignment(p)) == Ok(values[p.key := Unquote(p.value)])
  {
    hide Before, After;
    var line := Assignment(p);
    assert line[0] == p.key[0];
    assert !IsSpace(line[0]) && line[0] != '#';
    assert '=' !in p.key;
    PartitionJoined(p.key, p.value, '=');
    assert line[|p.key|] == '=';
    assert Plain(Unquote(p.value));
  }

  lemma {:induction false} KeysOf(pairs: seq<Pair>, k: string)
    ensures k in AsMap(pairs) <==> exists i :: 0 <= i < |pairs| && pairs[i].key == k
  {
    if |pairs| > 0 {
      KeysOf(pairs[..|pairs| - 1], k);
    }
  }

  lemma {:induction false} AssignmentsReadBack(pairs: seq<Pair>, lines: seq<string>, n: nat)
    requires Writable(pairs) && n <= |pairs| && lines == [HEADER] + Assignments(pairs)
    ensures ReadLines(lines, n + 1) == Ok(Unquoted(AsMap(pairs[..n])))
  {
    hide ReadLine, IsKey, Plain, Unbroken, Unquote, Assignment;
    if n == 0 {
      HeaderIsSkipped();
      assert ReadLines(lines, 0) == Ok(map[]);
      assert lines[0] == HEADER;
      assert pairs[..0] == [];
      assert Unquoted(map[]) == map[];
    } else {
      AssignmentsReadBack(pairs, lines, n - 1);
      var p, before := pairs[n - 1], AsMap(pairs[..n - 1]);
      assert lines[n] == Assignment(p);
      KeysOf(pairs[..n - 1], p.key);
      assert p.key !in Unquoted(before);
      AssignmentReadsBack(p, Unquoted(before));
      assert pairs[..n][..n - 1] == pairs[..n - 1];
      assert AsMap(pairs[..n]) == before[p.key := p.value];
      assert Unquoted(before[p.key := p.value]) == Unquoted(before)[p.key := Unquote(p.value)];
    }
  }

  lemma HeaderIsSkipped()
    ensures ReadLine(map[], HEADER) == Ok(map[]) && Unbroken(HEADER)
  {
    hide Before, After, Unquote, IsKey;
    var a, b, c := "# Generated FND-003 ", "instance; contains ", "private credentials.";
    assert Unbroken(a) && Unbroken(b) && Unbroken(c);
    assert HEADER[0] == a[0] == '#';
    assert TrimLeft(HEADER) == HEADER;
  }

  lemma {:induction false} WrittenLines(pairs: seq<Pair>)
    requires Writable(pairs) && |pairs| > 0
    ensures SplitLines(EnvironmentText(pairs)) == [HEADER] + Assignments(pairs)
  {
    hide SplitLines, IsKey, Plain, Joined, Assignment, Unbroken;
    var lines := Assignments(pairs);
    forall i | 0 <= i < |lines| ensures Unbroken(lines[i]) {
      AssignmentUnbroken(pairs[i]);
    }
    HeaderIsSkipped();
    SplitFirstLine(HEADER, Joined(lines) + "\n");
    SplitJoined(lines);
  }

  /** Reading the written text gives back every value, up to one pair of matching outer quotes. */
  lemma {:induction false} WrittenTextReadsBack(pairs: seq<Pair>)
    requires Writable(pairs) && |pairs| > 0
    ensures var lines := SplitLines(EnvironmentText(pairs));
            ReadLines(lines, |lines|) == Ok(Unquoted(AsMap(pairs)))
  {
    hide SplitLines, ReadLines, Writable, EnvironmentText, AsMap, Unquoted, Assignment;
    WrittenLines(pairs);
    var lines := [HEADER] + Assignments(pairs);
    AssignmentsReadBack(pairs, lines, |pairs|);
    assert |lines| == |pairs| + 1;
    assert pairs[..|pairs|] == pairs;
  }

  lemma {:induction false} AssignmentUnbroken(p: Pair)
    requires IsKey(p.key) && Unbroken(p.value)
    ensures Unbroken(Assignment(p))
  {
    var line := Assignment(p);
    forall i | 0 <= i < |line| ensures !IsBreak(line[i]) {
      assert line[i] == if i < |p.key| then p.key[i] else if i == |p.key| then '=' else p.value[i - |p.key| - 1];
    }
  }
}
