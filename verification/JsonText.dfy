/**
 Documents as json.dumps prints them with an indentation of two, for texts that JSON does not escape; the printed sizes
 are the sizes of these texts.
 */
module JsonText {
  import opened Text
  import opened PlanChecks
  import opened JsonSize
  import opened PackageSize

  function Indent(level: nat): string {
    if level == 0 then "" else Indent(level - 1) + "  "
  }

  function Quoted(s: string): string {
    "\"" + s + "\""
  }

  function NumberText(n: int): string {
    if n >= 0 then Decimal(n) else "-" + Decimal(-n)
  }

  /** The fields of an object come in some order, whatever it is. */
  ghost function Printed(j: Json, level: nat): string
    decreases j, 1, 0
  {
    match j
    case Null => "null"
    case Bool(b) => if b then "true" else "false"
    case Int(n) => NumberText(n)
    case Str(s) => Quoted(s)
    case List(items) =>
      if items == [] then "[]" else "[" + ItemLines(j, |items|, level) + "\n" + Indent(level) + "]"
    case Object(fields) =>
      if fields == map[] then "{}" else "{" + FieldLines(j, fields.Keys, level) + "\n" + Indent(level) + "}"
    case Other => "0"
  }

  /** The first n items, each on its line, with commas between them. */
  ghost function ItemLines(j: Json, n: nat, level: nat): string
    requires j.List? && n <= |j.items|
    decreases j, 0, n
  {
    if n == 0 then ""
    else
      ItemLines(j, n - 1, level) + (if n == 1 then "" else ",") +
      ("\n" + Indent(level + 1) + Printed(j.items[n - 1], level + 1))
  }

  ghost function FieldLines(j: Json, keys: set<string>, level: nat): string
    requires j.Object? && keys <= j.fields.Keys
    decreases j, 0, |keys|
  {
    if keys == {} then ""
    else
      var k := Pick(keys);
      ("\n" + Indent(level + 1) + Quoted(k) + ": " + Printed(j.fields[k], level + 1)) +
      (if keys == {k} then "" else ",") + FieldLines(j, keys - {k}, level)
  }

  // ---------------------------------------------------------------- sizes

  lemma {:induction false} IndentSize(level: nat)
    ensures Utf8Size(Indent(level)) == 2 * level
  {
    hide Utf8Size;
    if level == 0 {
      NoBytes();
    } else {
      IndentSize(level - 1);
      Utf8Concat(Indent(level - 1), "  ");
      Marks();
    }
  }

  lemma Marks()
    ensures Utf8Size("\n") == 1 && Utf8Size(",") == 1 && Utf8Size("\"") == 1 && Utf8Size(": ") == 2
    ensures Utf8Size("  ") == 2 && Utf8Size("-") == 1 && Utf8Size("0") == 1
  {
    hide Utf8Size;
    OneByte('\n');
    OneByte(',');
    OneByte('"');
    OneByte(':');
    OneByte(' ');
    OneByte('-');
    OneByte('0');
    assert ": " == [':'] + [' '] && "  " == [' '] + [' '];
    Utf8Concat([':'], [' ']);
    Utf8Concat([' '], [' ']);
  }

  lemma OneByte(c: char)
    requires c as int < 128
    ensures Utf8Size([c]) == 1
  {
    assert [c][..0] == "";
  }

  lemma Brackets()
    ensures Utf8Size("[") == 1 && Utf8Size("]") == 1 && Utf8Size("{") == 1 && Utf8Size("}") == 1
    ensures Utf8Size("[]") == 2 && Utf8Size("{}") == 2
  {
    hide Utf8Size;
    OneByte('[');
    OneByte(']');
    OneByte('{');
    OneByte('}');
    assert "[]" == ['['] + [']'] && "{}" == ['{'] + ['}'];
    Utf8Concat(['['], [']']);
    Utf8Concat(['{'], ['}']);
  }

  lemma {:induction false} QuotedSize(s: string)
    ensures Utf8Size(Quoted(s)) == TextSize(s)
  {
    hide Utf8Size;
    Utf8Concat("\"" + s, "\"");
    Utf8Concat("\"", s);
    Marks();
  }

  lemma {:induction false} DigitsSize(s: string)
    requires forall i :: 0 <= i < |s| ==> IsDigit(s[i])
    ensures Utf8Size(s) == |s|
  {
    if |s| > 0 {
      assert IsDigit(s[|s| - 1]);
      DigitsSize(s[..|s| - 1]);
    }
  }

  lemma {:induction false} NumberSize(n: int)
    ensures Utf8Size(NumberText(n)) == LeastSize(Int(n))
  {
    hide Utf8Size, Decimal;
    if n >= 0 {
      DigitsSize(Decimal(n));
    } else {
      DigitsSize(Decimal(-n));
      Utf8Concat("-", Decimal(-n));
      Marks();
    }
  }

  lemma Words()
    ensures Utf8Size("null") == 4 && Utf8Size("true") == 4 && Utf8Size("false") == 5
  {
    Plain4("null");
    Plain4("true");
    Plain4("false");
  }

  lemma {:induction false} Plain4(s: string)
    requires forall i :: 0 <= i < |s| ==> 'a' <= s[i] <= 'z'
    ensures Utf8Size(s) == |s|
  {
    if |s| > 0 { Plain4(s[..|s| - 1]); }
  }

  /** The printed size is the size of the printed text. */
  lemma {:induction false} PrintedTextSize(j: Json, level: nat)
    ensures Utf8Size(Printed(j, level)) == PrintedSize(j, level)
    decreases j, 1, 0
  {
    hide Utf8Size, LeastSize, PrintedItems, PrintedFields, ItemLines, FieldLines;
    match j
    case Null => Words(); LeastWords();
    case Bool(b) => Words();
    case Int(n) => NumberSize(n);
    case Str(s) => QuotedSize(s); LeastText(s);
    case List(items) =>
      Brackets();
      if items != [] {
        ItemLinesSize(j, |items|, level);
        Framed("[", ItemLines(j, |items|, level), level, "]");
      }
    case Object(fields) =>
      Brackets();
      if fields != map[] {
        FieldLinesSize(j, fields.Keys, level);
        assert |fields.Keys| == |fields|;
        Framed("{", FieldLines(j, fields.Keys, level), level, "}");
      }
    case Other => Marks(); LeastWords();
  }

  lemma LeastWords()
    ensures LeastSize(Null) == 4 && LeastSize(Other) == 1
  {
  }

  lemma LeastText(s: string)
    ensures LeastSize(Str(s)) == TextSize(s)
  {
  }

  lemma {:induction false} Framed(a: string, lines: string, level: nat, b: string)
    requires Utf8Size(a) == 1 && Utf8Size(b) == 1
    ensures Utf8Size(a + lines + "\n" + Indent(level) + b) == 3 + 2 * level + Utf8Size(lines)
  {
    hide Utf8Size, Indent;
    Utf8Concat(a + lines + "\n" + Indent(level), b);
    Utf8Concat(a + lines + "\n", Indent(level));
    Utf8Concat(a + lines, "\n");
    Utf8Concat(a, lines);
    IndentSize(level);
    Marks();
  }

  lemma {:induction false} ItemLinesSize(j: Json, n: nat, level: nat)
    requires j.List? && n <= |j.items|
    ensures Utf8Size(ItemLines(j, n, level)) == PrintedItems(j, n, level) + n * (1 + 2 * (level + 1)) + Commas(n)
    decreases j, 0, n
  {
    hide Utf8Size, Indent, Printed, PrintedSize;
    if n == 0 {
      NoBytes();
    } else {
      ItemLinesSize(j, n - 1, level);
      PrintedTextSize(j.items[n - 1], level + 1);
      var before, comma := ItemLines(j, n - 1, level), if n == 1 then "" else ",";
      var head, value := "\n" + Indent(level + 1), Printed(j.items[n - 1], level + 1);
      Utf8Concat(before + comma, head + value);
      Utf8Concat(before, comma);
      Utf8Concat(head, value);
      Utf8Concat("\n", Indent(level + 1));
      IndentSize(level + 1);
      Marks();
      NoBytes();
      Distribute(n, 1 + 2 * (level + 1));
    }
  }

  lemma Distribute(n: nat, k: nat)
    requires n > 0
    ensures n * k == (n - 1) * k + k
  {
  }

  lemma {:induction false} FieldLineSize(k: string, value: string, level: nat)
    ensures Utf8Size("\n" + Indent(level + 1) + Quoted(k) + ": " + value) ==
            1 + 2 * (level + 1) + TextSize(k) + 2 + Utf8Size(value)
  {
    hide Utf8Size, Indent, Quoted, TextSize;
    Utf8Concat("\n" + Indent(level + 1) + Quoted(k) + ": ", value);
    Utf8Concat("\n" + Indent(level + 1) + Quoted(k), ": ");
    Utf8Concat("\n" + Indent(level + 1), Quoted(k));
    Utf8Concat("\n", Indent(level + 1));
    IndentSize(level + 1);
    QuotedSize(k);
    Marks();
  }

  lemma {:induction false} FieldLinesSize(j: Json, keys: set<string>, level: nat)
    requires j.Object? && keys <= j.fields.Keys
    ensures Utf8Size(FieldLines(j, keys, level)) ==
            PrintedFields(j, keys, level) + |keys| * (1 + 2 * (level + 1)) + Commas(|keys|)
    decreases j, 0, |keys|
  {
    hide Utf8Size, Indent, Quoted, Printed, PrintedSize, TextSize;
    if keys == {} {
      NoBytes();
    } else {
      var k := Pick(keys);
      var rest := keys - {k};
      FieldLinesSize(j, rest, level);
      PrintedTextSize(j.fields[k], level + 1);
      var line := "\n" + Indent(level + 1) + Quoted(k) + ": " + Printed(j.fields[k], level + 1);
      var comma := if keys == {k} then "" else ",";
      FieldLineSize(k, Printed(j.fields[k], level + 1), level);
      Utf8Concat(line + comma, FieldLines(j, rest, level));
      Utf8Concat(line, comma);
      Marks();
      NoBytes();
      assert |keys| == |rest| + 1 && (keys == {k} <==> |rest| == 0);
      Distribute(|keys|, 1 + 2 * (level + 1));
    }
  }
}
