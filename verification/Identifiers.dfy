/**
 Splitting identifiers into words, the longest word prefix shared by several identifiers, and
 lower camel case. Identifiers are ASCII, as Go source names in this repository are.
 */
module Identifiers {
  import opened Text

  // ---------------------------------------------------------------- boundaries

  predicate IsLower(c: char) { 'a' <= c <= 'z' }

  predicate IsUpper(c: char) { 'A' <= c <= 'Z' }

  predicate IsBoundary(v: string, p: nat)
    requires 0 < p < |v|
  {
    || (IsLower(v[p - 1]) && IsUpper(v[p]))
    || (IsUpper(v[p - 1]) && IsUpper(v[p]) && p + 1 < |v| && IsLower(v[p + 1]))
    || IsDigit(v[p - 1]) != IsDigit(v[p])
  }

  /** The places where words start among the first n characters. */
  ghost function Cuts(v: string, n: nat): (cuts: seq<nat>)
    requires 0 < n <= |v|
    ensures |cuts| > 0 && cuts[0] == 0
    ensures forall k :: 0 <= k < |cuts| ==> cuts[k] < n && (k > 0 ==> cuts[k] > 0 && IsBoundary(v, cuts[k]))
    ensures forall a, b :: 0 <= a < b < |cuts| ==> cuts[a] < cuts[b]
    ensures forall p :: 0 < p < n && IsBoundary(v, p) ==> p in cuts
  {
    if n == 1 then [0]
    else if IsBoundary(v, n - 1) then Cuts(v, n - 1) + [n - 1]
    else Cuts(v, n - 1)
  }

  ghost function Cut(cuts: seq<nat>, k: nat, end: nat): nat {
    if k < |cuts| then cuts[k] else end
  }

  ghost predicate CutsOf(v: string, cuts: seq<nat>) {
    forall a, b :: 0 <= a <= b < |cuts| ==> cuts[a] <= cuts[b] <= |v|
  }

  /** The word between two neighbouring cuts. */
  ghost function Word(v: string, cuts: seq<nat>, k: nat): string
    requires CutsOf(v, cuts) && k < |cuts|
  {
    v[cuts[k]..Cut(cuts, k + 1, |v|)]
  }

  ghost function Words(v: string, cuts: seq<nat>, n: nat): (ws: seq<string>)
    requires CutsOf(v, cuts) && n <= |cuts|
    ensures |ws| == n && forall k :: 0 <= k < n ==> ws[k] == Word(v, cuts, k)
  {
    seq(n, k requires 0 <= k < n => Word(v, cuts, k))
  }

  /** The identifier cut exactly at its boundaries. */
  ghost function Split(v: string): seq<string> {
    if v == "" then [] else Words(v, Cuts(v, |v|), |Cuts(v, |v|)|)
  }

  // All words but the last, which is still open.
  ghost predicate Closed(v: string, cuts: seq<nat>, parts: seq<string>) {
    && CutsOf(v, cuts) && |parts| + 1 == |cuts|
    && (forall k :: 0 <= k < |parts| ==> parts[k] == v[cuts[k]..cuts[k + 1]])
  }

  lemma {:induction false} CutsStep(v: string, i: nat)
    requires 0 < i < |v|
    ensures Cuts(v, i + 1) == if IsBoundary(v, i) then Cuts(v, i) + [i] else Cuts(v, i)
  {
  }

  lemma {:induction false} CloseWord(v: string, cuts: seq<nat>, parts: seq<string>, i: nat)
    requires Closed(v, cuts, parts) && cuts[|parts|] <= i <= |v|
    ensures Closed(v, cuts + [i], parts + [v[cuts[|parts|]..i]])
  {
  }

  lemma {:induction false} LastWord(v: string, parts: seq<string>)
    requires v != "" && Closed(v, Cuts(v, |v|), parts)
    ensures parts + [v[Cuts(v, |v|)[|parts|]..]] == Split(v)
  {
    hide Cuts, IsBoundary;
    var cuts := Cuts(v, |v|);
    var words := parts + [v[cuts[|parts|]..]];
    forall k | 0 <= k < |words| ensures words[k] == Word(v, cuts, k) {
    }
  }

  method SplitIdentifier(value: string) returns (parts: seq<string>)
    ensures parts == Split(value)
  {
    hide IsBoundary, Cuts, Closed, Split;
    if value == "" {
      EmptySplit();
      return [];
    }
    parts := [];
    var start := 0;
    OneWord(value);
    var i := 1;
    while i < |value|
      invariant 0 < i <= |value|
      invariant Closed(value, Cuts(value, i), parts) && OpenAt(value, i, parts) == start
    {
      CutsStep(value, i);
      assert start < i;
      CloseWord(value, Cuts(value, i), parts, i);
      if IsBoundary(value, i) {
        parts := parts + [value[start..i]];
        start := i;
      }
      i := i + 1;
    }
    LastWord(value, parts);
    parts := parts + [value[start..]];
  }

  ghost function OpenAt(v: string, i: nat, parts: seq<string>): (start: nat)
    requires 0 < i <= |v| && Closed(v, Cuts(v, i), parts)
    ensures start < i
  {
    Cuts(v, i)[|parts|]
  }

  lemma EmptySplit()
    ensures Split("") == []
  {
  }

  lemma OneWord(v: string)
    requires v != ""
    ensures Closed(v, Cuts(v, 1), []) && OpenAt(v, 1, []) == 0
  {
  }
}
