/** What splitting promises, the shared prefix of several identifiers, and lower camel case. */
module IdentifierResults {
  import opened Identifiers
  import opened Tables
  import opened Text

  // ---------------------------------------------------------------- splitting

  /** strings.Join of the first n parts. */
  function Join(parts: seq<string>, n: nat): string
    requires n <= |parts|
  {
    if n == 0 then "" else Join(parts, n - 1) + parts[n - 1]
  }

  lemma {:induction false} WordsJoin(v: string, cuts: seq<nat>, n: nat)
    requires CutsOf(v, cuts) && 0 < |cuts| && cuts[0] == 0 && n <= |cuts|
    ensures Join(Words(v, cuts, |cuts|), n) == v[..Cut(cuts, n, |v|)]
  {
    hide Words;
    if n > 0 {
      WordsJoin(v, cuts, n - 1);
      assert v[..cuts[n - 1]] + Word(v, cuts, n - 1) == v[..Cut(cuts, n, |v|)];
    }
  }

  ghost predicate BreaksAt(parts: seq<string>, p: nat) {
    exists k :: 0 < k < |parts| && |Join(parts, k)| == p
  }

  ghost predicate BreaksExactly(v: string, parts: seq<string>) {
    forall p: nat :: 0 < p < |v| ==> (IsBoundary(v, p) <==> BreaksAt(parts, p))
  }

  ghost predicate NonEmpty(parts: seq<string>) {
    forall k :: 0 <= k < |parts| ==> parts[k] != ""
  }

  lemma {:induction false} CutsAreBreaks(v: string, cuts: seq<nat>, parts: seq<string>, p: nat)
    requires v != "" && cuts == Cuts(v, |v|) && 0 < p < |v| && |parts| == |cuts|
    requires forall k :: 0 <= k < |cuts| ==> |Join(parts, k)| == cuts[k]
    ensures IsBoundary(v, p) <==> BreaksAt(parts, p)
  {
    hide IsBoundary, Cuts, Join;
    if IsBoundary(v, p) {
      var k :| 0 <= k < |cuts| && cuts[k] == p;
      assert |Join(parts, k)| == p;
    }
  }

  /** The parts are non-empty, join to the input and break exactly at its boundaries. */
  lemma {:induction false} SplitMeaning(v: string)
    ensures NonEmpty(Split(v)) && Join(Split(v), |Split(v)|) == v && BreaksExactly(v, Split(v))
  {
    hide IsBoundary, Cuts, Join, Words, BreaksAt;
    if v == "" {
      EmptyJoin([]);
    } else {
      var cuts, parts := Cuts(v, |v|), Split(v);
      WordsJoin(v, cuts, |cuts|);
      assert v[..|v|] == v;
      forall k | 0 <= k < |cuts| ensures |Join(parts, k)| == cuts[k] {
        WordsJoin(v, cuts, k);
      }
      forall p: nat | 0 < p < |v| ensures IsBoundary(v, p) <==> BreaksAt(parts, p) {
        CutsAreBreaks(v, cuts, parts, p);
      }
    }
  }

  ghost function Offsets(parts: seq<string>, n: nat): (s: seq<nat>)
    requires n <= |parts|
    ensures |s| == n && forall k :: 0 <= k < n ==> s[k] == |Join(parts, k)|
  {
    seq(n, k requires 0 <= k < n => |Join(parts, k)|)
  }

  lemma {:induction false} OffsetsAscend(parts: seq<string>, a: nat, b: nat)
    requires NonEmpty(parts) && a < b <= |parts|
    ensures |Join(parts, a)| < |Join(parts, b)|
  {
    if a + 1 < b { OffsetsAscend(parts, a, b - 1); }
  }

  lemma {:induction false} OffsetsAreCuts(v: string, parts: seq<string>)
    requires v != "" && NonEmpty(parts) && Join(parts, |parts|) == v && BreaksExactly(v, parts)
    ensures Offsets(parts, |parts|) == Cuts(v, |v|)
  {
    hide IsBoundary, Cuts, Join, Offsets, Ascending;
    EmptyJoin(parts);
    assert |parts| > 0;
    var cuts, offsets := Cuts(v, |v|), Offsets(parts, |parts|);
    forall a, b | 0 <= a < b <= |parts| ensures |Join(parts, a)| < |Join(parts, b)| { OffsetsAscend(parts, a, b); }
    var s := set k | 0 <= k < |cuts| :: cuts[k];
    forall p: nat ensures p in offsets <==> p in s {
      OffsetIsCut(v, parts, p);
    }
    AscendingUnique(s, cuts);
    AscendingUnique(s, offsets);
  }

  lemma {:induction false} OffsetIsCut(v: string, parts: seq<string>, p: nat)
    requires v != "" && NonEmpty(parts) && Join(parts, |parts|) == v && BreaksExactly(v, parts) && |parts| > 0
    ensures p in Offsets(parts, |parts|) <==> p in Cuts(v, |v|)
  {
    hide IsBoundary, Cuts, Join, Offsets;
    EmptyJoin(parts);
    var offsets, cuts := Offsets(parts, |parts|), Cuts(v, |v|);
    if p == 0 {
      assert offsets[0] == 0 && cuts[0] == 0;
    } else if p >= |v| {
      forall k | 0 <= k < |parts| ensures offsets[k] < |v| { OffsetsAscend(parts, k, |parts|); }
    } else {
      if p in offsets {
        var k :| 0 <= k < |parts| && offsets[k] == p;
        assert |Join(parts, k)| == p;
      }
      if p in cuts {
        var k :| 0 <= k < |cuts| && cuts[k] == p;
        assert BreaksAt(parts, p);
        var m :| 0 < m < |parts| && |Join(parts, m)| == p;
        assert offsets[m] == p;
      }
    }
  }

  /** Nothing else has these three properties. */
  lemma {:induction false} SplitIsOnly(v: string, parts: seq<string>)
    requires NonEmpty(parts) && Join(parts, |parts|) == v && BreaksExactly(v, parts)
    ensures parts == Split(v)
  {
    hide IsBoundary, Cuts, Join, Words, BreaksAt;
    if v == "" {
      EmptyJoin(parts);
      if |parts| > 0 { OffsetsAscend(parts, 0, |parts|); }
    } else {
      OffsetsAreCuts(v, parts);
      var cuts := Cuts(v, |v|);
      forall k | 0 <= k < |parts| ensures parts[k] == Word(v, cuts, k) {
        PartBetween(v, parts, k);
        assert k + 1 < |parts| ==> cuts[k + 1] == |Join(parts, k + 1)|;
      }
    }
  }

  lemma {:induction false} PartBetween(v: string, parts: seq<string>, k: nat)
    requires k < |parts| && Join(parts, |parts|) == v
    ensures |Join(parts, k)| <= |Join(parts, k + 1)| <= |v| && parts[k] == v[|Join(parts, k)|..|Join(parts, k + 1)|]
  {
    JoinGrows(parts, k + 1, |parts|);
    assert Join(parts, k + 1) == Join(parts, k) + parts[k];
    assert Join(parts, k + 1) == v[..|Join(parts, k + 1)|];
  }

  lemma EmptyJoin(parts: seq<string>)
    ensures Join(parts, 0) == ""
  {
  }

  // ---------------------------------------------------------------- the shared prefix

  function Shared(a: seq<string>, b: seq<string>): (n: nat)
    ensures n <= |a| && n <= |b| && a[..n] == b[..n]
    ensures n < |a| && n < |b| ==> a[n] != b[n]
  {
    if |a| == 0 || |b| == 0 || a[0] != b[0] then 0
    else
      var n := Shared(a[1..], b[1..]);
      assert a[..n + 1] == [a[0]] + a[1..][..n] && b[..n + 1] == [b[0]] + b[1..][..n];
      n + 1
  }

  /** The words that the first n names share from the start. */
  ghost function SharedWords(names: seq<string>, n: nat): seq<string>
    requires 0 < n <= |names|
  {
    if n == 1 then Split(names[0])
    else
      var before := SharedWords(names, n - 1);
      before[..Shared(before, Split(names[n - 1]))]
  }

  lemma {:induction false} SharedIsMeet(a: seq<string>, b: seq<string>, words: seq<string>)
    ensures words <= a && words <= b <==> words <= a[..Shared(a, b)]
  {
    var n := Shared(a, b);
    if words <= a[..n] {
      assert words <= b[..n];
    }
  }

  /** A word sequence starts every name exactly when it starts the shared words: they are the longest. */
  lemma {:induction false} SharedWordsAreLongest(names: seq<string>, n: nat, words: seq<string>)
    requires 0 < n <= |names|
    ensures words <= SharedWords(names, n) <==> forall i :: 0 <= i < n ==> words <= Split(names[i])
  {
    hide Split, Shared;
    if n > 1 {
      SharedWordsAreLongest(names, n - 1, words);
      SharedIsMeet(SharedWords(names, n - 1), Split(names[n - 1]), words);
    }
  }

  /** Order and repetition of the names do not matter. */
  lemma {:induction false} OrderDoesNotMatter(a: seq<string>, b: seq<string>)
    requires |a| > 0 && |b| > 0 && forall name :: name in a <==> name in b
    ensures SharedWords(a, |a|) == SharedWords(b, |b|)
  {
    hide Split, SharedWords;
    var x, y := SharedWords(a, |a|), SharedWords(b, |b|);
    SharedWordsAreLongest(a, |a|, x);
    SharedWordsAreLongest(b, |b|, x);
    SharedWordsAreLongest(a, |a|, y);
    SharedWordsAreLongest(b, |b|, y);
    forall i | 0 <= i < |b| ensures x <= Split(b[i]) {
      assert b[i] in a;
      var j :| 0 <= j < |a| && a[j] == b[i];
    }
    forall i | 0 <= i < |a| ensures y <= Split(a[i]) {
      assert a[i] in b;
      var j :| 0 <= j < |b| && b[j] == a[i];
    }
    assert x <= y && y <= x;
  }

  lemma {:induction false} JoinOfPrefix(a: seq<string>, b: seq<string>, n: nat)
    requires n <= |a| && a <= b
    ensures Join(a, n) == Join(b, n)
  {
    if n > 0 { JoinOfPrefix(a, b, n - 1); }
  }

  lemma {:induction false} JoinGrows(parts: seq<string>, n: nat, m: nat)
    requires n <= m <= |parts|
    ensures Join(parts, n) <= Join(parts, m)
  {
    if n < m { JoinGrows(parts, n, m - 1); }
  }

  ghost function CommonPrefix(names: seq<string>): string {
    if names == [] then "" else Join(SharedWords(names, |names|), |SharedWords(names, |names|)|)
  }

  /** The result is a prefix of every name. */
  lemma {:induction false} CommonPrefixIsPrefix(names: seq<string>, i: nat)
    requires i < |names|
    ensures CommonPrefix(names) <= names[i]
  {
    hide Split, SharedWords, Join, NonEmpty, BreaksExactly;
    var words := SharedWords(names, |names|);
    SharedWordsAreLongest(names, |names|, words);
    assert words <= Split(names[i]);
    JoinOfPrefix(words, Split(names[i]), |words|);
    JoinGrows(Split(names[i]), |words|, |Split(names[i])|);
    SplitMeaning(names[i]);
  }

  lemma NothingShared(names: seq<string>, n: nat)
    requires 0 < n <= |names| && SharedWords(names, n) == []
    ensures SharedWords(names, |names|) == []
  {
    hide Split, SharedWords;
    var words := SharedWords(names, |names|);
    SharedWordsAreLongest(names, |names|, words);
    SharedWordsAreLongest(names, n, words);
  }

  method CommonIdentifierPrefix(names: seq<string>) returns (prefix: string)
    ensures prefix == CommonPrefix(names)
  {
    hide Split, Join, Shared;
    if |names| == 0 {
      return "";
    }
    var common := SplitIdentifier(names[0]);
    for i := 1 to |names|
      invariant common == SharedWords(names, i)
    {
      var tokens := SplitIdentifier(names[i]);
      var limit := if |common| < |tokens| then |common| else |tokens|;
      var n := 0;
      while n < limit && common[n] == tokens[n]
        invariant n <= limit && common[..n] == tokens[..n]
      {
        n := n + 1;
      }
      SharedIs(common, tokens, n);
      common := common[..n];
      if |common| == 0 {
        NothingShared(names, i + 1);
        EmptyJoin(common);
        return "";
      }
    }
    prefix := JoinAll(common);
  }

  lemma {:induction false} SharedIs(a: seq<string>, b: seq<string>, n: nat)
    requires n <= |a| && n <= |b| && a[..n] == b[..n] && (n == |a| || n == |b| || a[n] != b[n])
    ensures Shared(a, b) == n
  {
    hide Shared;
    var m := Shared(a, b);
    if m < n {
    } else if n < m {
    }
  }

  method JoinAll(parts: seq<string>) returns (s: string)
    ensures s == Join(parts, |parts|)
  {
    s := "";
    for i := 0 to |parts|
      invariant s == Join(parts, i)
    {
      s := s + parts[i];
    }
  }

  // ---------------------------------------------------------------- lower camel case

  predicate Ascii(v: string) {
    forall i :: 0 <= i < |v| ==> v[i] < '\U{0080}'
  }

  function Lower(c: char): char {
    if IsUpper(c) then (c as int + 32) as char else c
  }

  function Upper(c: char): char {
    if IsLower(c) then (c as int - 32) as char else c
  }

  /** strings.ToLower on ASCII. */
  function ToLower(v: string): (r: string)
    ensures |r| == |v| && forall i :: 0 <= i < |v| ==> r[i] == Lower(v[i])
  {
    seq(|v|, i requires 0 <= i < |v| => Lower(v[i]))
  }

  // No word starts before position p, other than the first.
  ghost predicate InFirstWord(v: string, p: nat)
    requires p < |v|
  {
    forall q :: 0 < q <= p ==> !IsBoundary(v, q)
  }

  /** The character at p of the camel-cased identifier. */
  ghost function CamelAt(v: string, p: nat): char
    requires p < |v|
  {
    if InFirstWord(v, p) then Lower(v[p]) else if IsBoundary(v, p) then Upper(v[p]) else v[p]
  }

  ghost predicate IsCamel(v: string, r: string) {
    |r| == |v| && forall p :: 0 <= p < |v| ==> r[p] == CamelAt(v, p)
  }

  // The end of the first word is still a boundary.
  lemma {:induction false} FirstWordEnds(v: string, r: string, f: nat)
    requires IsCamel(v, r) && 0 < f < |v| && InFirstWord(v, f - 1) && IsBoundary(v, f)
    ensures IsBoundary(r, f)
  {
    assert r[f - 1] == Lower(v[f - 1]) && r[f] == CamelAt(v, f);
    assert !InFirstWord(v, f);
  }

  lemma {:induction false} FirstWordShrinks(v: string, r: string, p: nat)
    requires IsCamel(v, r) && p < |v| && InFirstWord(r, p)
    ensures InFirstWord(v, p)
  {
    hide IsBoundary;
    if !InFirstWord(v, p) {
      var q :| 0 < q <= p && IsBoundary(v, q);
      var f := FirstBoundary(v, q);
      FirstWordEnds(v, r, f);
    }
  }

  lemma {:induction false} FirstBoundary(v: string, q: nat) returns (f: nat)
    requires 0 < q < |v| && IsBoundary(v, q)
    ensures 0 < f <= q && IsBoundary(v, f) && InFirstWord(v, f - 1)
  {
    hide IsBoundary;
    f := q;
    if g :| 0 < g < q && IsBoundary(v, g) {
      f := FirstBoundary(v, g);
    }
  }

  lemma {:induction false} CamelAtStable(v: string, r: string, p: nat)
    requires IsCamel(v, r) && p < |v|
    ensures CamelAt(r, p) == r[p]
  {
    assert r[p] == CamelAt(v, p);
    if InFirstWord(r, p) {
      FirstWordShrinks(v, r, p);
    } else if IsBoundary(r, p) {
      if IsDigit(r[p - 1]) && IsLower(r[p]) {
        assert r[p - 1] == CamelAt(v, p - 1);
        assert IsBoundary(v, p) && !InFirstWord(v, p);
      }
    }
  }

  /** Camel-casing a camel-cased identifier changes nothing. */
  lemma {:induction false} CamelCaseIsIdempotent(v: string, r: string, s: string)
    requires IsCamel(v, r) && IsCamel(r, s)
    ensures s == r
  {
    hide CamelAt;
    forall p | 0 <= p < |v| ensures s[p] == r[p] {
      CamelAtStable(v, r, p);
    }
  }

  lemma BetweenCuts(cuts: seq<nat>, k: nat, q: nat, end: nat)
    requires forall a, b :: 0 <= a < b < |cuts| ==> cuts[a] < cuts[b]
    requires k < |cuts| && cuts[k] < q < Cut(cuts, k + 1, end)
    ensures q !in cuts
  {
    forall m | 0 <= m < |cuts| ensures cuts[m] != q {
      assert m < k ==> cuts[m] < cuts[k];
      assert m > k + 1 ==> cuts[k + 1] < cuts[m];
    }
  }

  // Word k of the split occupies the positions between its cuts; only its first character is a boundary.
  lemma {:induction false} WordCamel(v: string, cuts: seq<nat>, k: nat, p: nat)
    requires v != "" && cuts == Cuts(v, |v|) && k < |cuts| && cuts[k] <= p < Cut(cuts, k + 1, |v|)
    ensures CamelAt(v, p) == if k == 0 then Lower(v[p]) else if p == cuts[k] then Upper(v[p]) else v[p]
  {
    hide IsBoundary, Cuts;
    if k > 0 { assert 0 < cuts[k] <= p && IsBoundary(v, cuts[k]); }
    forall q: nat | cuts[k] < q <= p ensures !IsBoundary(v, q) {
      BetweenCuts(cuts, k, q, |v|);
    }
  }

  /** A word starts at a capital after a small letter, at a capital before a small letter, and around digits. */
  lemma BoundaryMeans(v: string, p: nat)
    requires 0 < p < |v|
    ensures IsBoundary(v, p) <==>
            || ('a' <= v[p - 1] <= 'z' && 'A' <= v[p] <= 'Z')
            || ('A' <= v[p - 1] <= 'Z' && 'A' <= v[p] <= 'Z' && p < |v| - 1 && 'a' <= v[p + 1] <= 'z')
            || ('0' <= v[p - 1] <= '9' && !('0' <= v[p] <= '9'))
            || (!('0' <= v[p - 1] <= '9') && '0' <= v[p] <= '9')
  {
  }

  method CamelCase(value: string) returns (r: string)
    requires Ascii(value)
    ensures IsCamel(value, r) && Ascii(r)
  {
    hide IsBoundary, Cuts, CamelAt, Word;
    CamelIsAscii(value);
    var tokens := SplitIdentifier(value);
    if |tokens| == 0 {
      return ToLower(value);
    }
    ghost var cuts := Cuts(value, |value|);
    r := ToLower(tokens[0]);
    FirstToken(value, cuts);
    for k := 1 to |tokens|
      invariant |r| == Cut(cuts, k, |value|) && forall p :: 0 <= p < |r| ==> r[p] == CamelAt(value, p)
    {
      var token := tokens[k];
      LaterToken(value, cuts, k);
      if token != "" {
        var capital := [Upper(token[0])] + token[1..];
        ghost var before := r;
        r := r + capital;
        forall p | |before| <= p < |r| ensures r[p] == CamelAt(value, p) {
          assert r[p] == capital[p - |before|];
        }
      }
    }
  }

  lemma CamelIsAscii(v: string)
    requires Ascii(v)
    ensures forall p :: 0 <= p < |v| ==> CamelAt(v, p) < '\U{0080}'
  {
    hide IsBoundary, InFirstWord;
  }

  lemma {:induction false} FirstToken(v: string, cuts: seq<nat>)
    requires v != "" && cuts == Cuts(v, |v|)
    ensures |Word(v, cuts, 0)| == Cut(cuts, 1, |v|) &&
            forall p :: 0 <= p < Cut(cuts, 1, |v|) ==> Lower(Word(v, cuts, 0)[p]) == CamelAt(v, p)
  {
    hide IsBoundary, Cuts, CamelAt;
    forall p | 0 <= p < Cut(cuts, 1, |v|) ensures Lower(Word(v, cuts, 0)[p]) == CamelAt(v, p) {
      WordCamel(v, cuts, 0, p);
    }
  }

  lemma {:induction false} LaterToken(v: string, cuts: seq<nat>, k: nat)
    requires v != "" && cuts == Cuts(v, |v|) && 0 < k < |cuts|
    ensures var w := Word(v, cuts, k);
            w != "" && cuts[k] + |w| == Cut(cuts, k + 1, |v|)
            && (forall p :: 0 <= p < |w| ==> ([Upper(w[0])] + w[1..])[p] == CamelAt(v, cuts[k] + p))
  {
    hide IsBoundary, Cuts, CamelAt;
    var w := Word(v, cuts, k);
    forall p | 0 <= p < |w| ensures ([Upper(w[0])] + w[1..])[p] == CamelAt(v, cuts[k] + p) {
      WordCamel(v, cuts, k, cuts[k] + p);
    }
  }
}
