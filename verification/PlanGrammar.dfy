/** The texts that the planner's checks accept, as grammars: identifiers, deployment directories, public origins. */
module PlanGrammar {
  import opened Text
  import opened PlanChecks

  // ---------------------------------------------------------------- joining and splitting

  function JoinBy(parts: seq<string>, c: char): string
    requires |parts| > 0
  {
    if |parts| == 1 then parts[0] else parts[0] + [c] + JoinBy(parts[1..], c)
  }

  function SplitBy(s: string, c: char): (parts: seq<string>)
    ensures |parts| > 0
    ensures forall i :: 0 <= i < |parts| ==> c !in parts[i]
  {
    if |s| == 0 then [""]
    else
      var rest := SplitBy(s[1..], c);
      if s[0] == c then [""] + rest else [[s[0]] + rest[0]] + rest[1..]
  }

  lemma {:induction false} JoinFirst(head: string, parts: seq<string>, c: char)
    requires |parts| > 0
    ensures JoinBy([head + parts[0]] + parts[1..], c) == head + JoinBy(parts, c)
  {
    var longer := [head + parts[0]] + parts[1..];
    if |parts| > 1 {
      assert longer[1..] == parts[1..];
      assert head + (parts[0] + [c] + JoinBy(parts[1..], c)) == head + parts[0] + [c] + JoinBy(parts[1..], c);
    }
  }

  lemma {:induction false} JoinSplit(s: string, c: char)
    ensures JoinBy(SplitBy(s, c), c) == s
  {
    if |s| > 0 {
      JoinSplit(s[1..], c);
      var rest := SplitBy(s[1..], c);
      assert s == [s[0]] + s[1..];
      if s[0] == c {
        assert ([""] + rest)[1..] == rest;
      } else {
        JoinFirst([s[0]], rest, c);
      }
    }
  }

  ghost predicate Free(parts: seq<string>, c: char) {
    |parts| > 0 && forall i :: 0 <= i < |parts| ==> c !in parts[i]
  }

  lemma {:induction false} SplitJoin(parts: seq<string>, c: char)
    requires Free(parts, c)
    ensures SplitBy(JoinBy(parts, c), c) == parts
    decreases |parts|, |parts[0]|
  {
    var s := JoinBy(parts, c);
    if |parts[0]| > 0 {
      var tail := [parts[0][1..]] + parts[1..];
      assert [parts[0][0]] + tail[0] == parts[0] && tail[1..] == parts[1..];
      assert parts == [parts[0]] + parts[1..];
      JoinFirst([parts[0][0]], tail, c);
      assert s == [parts[0][0]] + JoinBy(tail, c);
      assert s[1..] == JoinBy(tail, c);
      SplitJoin(tail, c);
    } else if |parts| > 1 {
      assert s == [c] + JoinBy(parts[1..], c);
      assert s[1..] == JoinBy(parts[1..], c);
      SplitJoin(parts[1..], c);
      assert parts == [""] + parts[1..];
    } else {
      assert parts == [""];
    }
  }

  ghost predicate LaterFull(parts: seq<string>) {
    forall i :: 1 <= i < |parts| ==> parts[i] != ""
  }

  lemma {:induction false} LaterParts(s: string, c: char)
    ensures LaterFull(SplitBy(s, c)) <==> (|s| > 0 ==> s[|s| - 1] != c) && !HasPair(s, c, c)
  {
    var parts := SplitBy(s, c);
    if |s| == 1 {
      assert SplitBy(s[1..], c) == [""];
      if s[0] == c { assert parts[1] == ""; }
    } else if |s| > 1 {
      var tail := s[1..];
      var rest := SplitBy(tail, c);
      LaterParts(tail, c);
      assert tail[|tail| - 1] == s[|s| - 1] && tail[0] == s[1];
      PairTail(s, c);
      FirstPart(tail, c);
      if s[0] == c {
        assert forall i :: 0 <= i < |rest| ==> parts[i + 1] == rest[i];
        assert LaterFull(parts) <==> rest[0] != "" && LaterFull(rest) by { Shifted(parts, rest); }
      } else {
        assert parts[1..] == rest[1..];
        assert forall i :: 1 <= i < |parts| ==> parts[i] == rest[i];
      }
    }
  }

  lemma Shifted(parts: seq<string>, rest: seq<string>)
    requires |rest| > 0 && parts == [""] + rest
    ensures LaterFull(parts) <==> rest[0] != "" && LaterFull(rest)
  {
    assert parts[1] == rest[0];
    if LaterFull(parts) {
      forall i | 1 <= i < |rest| ensures rest[i] != "" { assert parts[i + 1] == rest[i]; }
    }
  }

  /** No part is empty exactly when the text does not start or end with the separator and never doubles it. */
  lemma {:induction false} NoEmptyPart(s: string, c: char)
    ensures (forall i :: 0 <= i < |SplitBy(s, c)| ==> SplitBy(s, c)[i] != "") <==>
            |s| > 0 && s[0] != c && s[|s| - 1] != c && !HasPair(s, c, c)
  {
    hide HasPair;
    LaterParts(s, c);
    if |s| == 0 { assert SplitBy(s, c)[0] == ""; } else { FirstPart(s, c); }
  }

  lemma FirstPart(s: string, c: char)
    requires |s| > 0
    ensures SplitBy(s, c)[0] == "" <==> s[0] == c
  {
  }

  lemma {:induction false} PairTail(s: string, c: char)
    requires |s| > 1
    ensures HasPair(s, c, c) <==> (s[0] == c && s[1] == c) || HasPair(s[1..], c, c)
  {
    var tail := s[1..];
    if HasPair(s, c, c) {
      var i :| 0 <= i < |s| - 1 && s[i] == c && s[i + 1] == c;
      if i > 0 { assert tail[i - 1] == c && tail[i - 1 + 1] == c; }
    }
    if HasPair(tail, c, c) {
      var i :| 0 <= i < |tail| - 1 && tail[i] == c && tail[i + 1] == c;
      assert s[i + 1] == c && s[i + 1 + 1] == c;
    }
    if s[0] == c && s[1] == c { assert s[0 + 1] == c; }
  }

  lemma {:induction false} PartChars(s: string, c: char, i: nat, x: char)
    requires i < |SplitBy(s, c)| && x in SplitBy(s, c)[i]
    ensures x in s && x != c
  {
    if |s| > 0 {
      var rest := SplitBy(s[1..], c);
      if s[0] == c {
        assert SplitBy(s, c)[i] == if i == 0 then "" else rest[i - 1];
        PartChars(s[1..], c, i - 1, x);
      } else if i > 0 {
        assert SplitBy(s, c)[i] == rest[i];
        PartChars(s[1..], c, i, x);
      } else if x != s[0] {
        assert x in rest[0];
        PartChars(s[1..], c, 0, x);
      }
      assert s == [s[0]] + s[1..];
    }
  }

  lemma {:induction false} JoinChars(parts: seq<string>, c: char, x: char)
    requires |parts| > 0 && x in JoinBy(parts, c) && x != c
    ensures exists i :: 0 <= i < |parts| && x in parts[i]
  {
    if |parts| > 1 && x !in parts[0] {
      JoinChars(parts[1..], c, x);
      var i :| 0 <= i < |parts[1..]| && x in parts[1..][i];
      assert x in parts[i + 1];
    }
  }

  // ---------------------------------------------------------------- identifiers

  ghost predicate Word(w: string) {
    w != "" && forall x :: x in w ==> 'a' <= x <= 'z' || '0' <= x <= '9'
  }

  ghost predicate Words(words: seq<string>) {
    |words| > 0 && (forall i :: 0 <= i < |words| ==> Word(words[i])) && 'a' <= words[0][0] <= 'z'
  }

  /** Words of lower-case letters and digits joined by hyphens, starting with a letter, at most 48 characters. */
  lemma {:induction false} IdentifierMeans(s: string)
    ensures IsIdentifier(s) <==> |s| <= 48 && exists words :: Words(words) && s == JoinBy(words, '-')
  {
    hide JoinBy, SplitBy, HasPair;
    if IsIdentifier(s) {
      var words := SplitBy(s, '-');
      JoinSplit(s, '-');
      NoEmptyPart(s, '-');
      forall i | 0 <= i < |words| ensures Word(words[i]) {
        forall x | x in words[i] ensures 'a' <= x <= 'z' || '0' <= x <= '9' { PartChars(s, '-', i, x); }
      }
      FirstChar(words, '-');
      assert Words(words);
    }
    if |s| <= 48 && exists words :: Words(words) && s == JoinBy(words, '-') {
      var words :| Words(words) && s == JoinBy(words, '-');
      SplitJoin(words, '-');
      NoEmptyPart(s, '-');
      FirstChar(words, '-');
      forall k | 0 <= k < |s| ensures 'a' <= s[k] <= 'z' || '0' <= s[k] <= '9' || s[k] == '-' {
        if s[k] != '-' {
          JoinChars(words, '-', s[k]);
          var i :| 0 <= i < |words| && s[k] in words[i];
          assert Word(words[i]);
        }
      }
    }
  }

  lemma FirstChar(parts: seq<string>, c: char)
    requires |parts| > 0 && parts[0] != ""
    ensures JoinBy(parts, c) != "" && JoinBy(parts, c)[0] == parts[0][0]
  {
  }

  // ---------------------------------------------------------------- deployment directories

  ghost predicate PathPart(p: string) {
    && p != "" && p != "." && p != ".."
    && forall x :: x in p ==>
         'a' <= x <= 'z' || 'A' <= x <= 'Z' || '0' <= x <= '9' || x == '_' || x == '.' || x == '-'
  }

  ghost predicate PathParts(parts: seq<string>) {
    |parts| > 0 && forall i :: 0 <= i < |parts| ==> PathPart(parts[i])
  }

  /** An instance directory below one of the five allowed parents. */
  ghost predicate BelowParent(parts: seq<string>) {
    || (|parts| >= 2 && (parts[0] == "srv" || parts[0] == "opt" || parts[0] == "data" || parts[0] == "mnt"))
    || (|parts| >= 3 && parts[0] == "var" && parts[1] == "lib")
  }

  lemma {:induction false} ComponentsSplit(s: string)
    ensures Components(s) == SplitBy(s, '/')
  {
    if |s| > 0 { ComponentsSplit(s[1..]); }
  }

  lemma {:induction false} SplitHead(a: string, rest: string, c: char)
    requires c !in a
    ensures SplitBy(a + [c] + rest, c) == [a] + SplitBy(rest, c)
  {
    var s := a + [c] + rest;
    if |a| == 0 {
      assert s[0] == c && s[1..] == rest;
    } else {
      assert s[0] == a[0] && s[1..] == a[1..] + [c] + rest;
      SplitHead(a[1..], rest, c);
      assert [a[0]] + a[1..] == a;
    }
  }

  /** A text starts with a part and a separator exactly when that is its first part and there are more. */
  lemma {:induction false} StartsWithPart(parts: seq<string>, a: string, c: char)
    requires Free(parts, c) && c !in a
    ensures a + [c] <= JoinBy(parts, c) <==> |parts| >= 2 && parts[0] == a
  {
    var s := JoinBy(parts, c);
    if a + [c] <= s {
      var rest := s[|a| + 1..];
      assert s == a + [c] + rest;
      SplitHead(a, rest, c);
      SplitJoin(parts, c);
      assert parts == [a] + SplitBy(rest, c);
    }
  }

  lemma {:induction false} ParentMeans(parts: seq<string>)
    requires Free(parts, '/')
    ensures BelowParentText("/" + JoinBy(parts, '/')) <==>
            || (|parts| >= 2 && (parts[0] == "srv" || parts[0] == "opt" || parts[0] == "data" || parts[0] == "mnt"))
            || (|parts| >= 3 && parts[0] == "var" && parts[1] == "lib")
  {
    hide JoinBy;
    var t := JoinBy(parts, '/');
    var s := "/" + t;
    assert s[1..] == t;
    StartsWithPart(parts, "srv", '/');
    StartsWithPart(parts, "opt", '/');
    StartsWithPart(parts, "data", '/');
    StartsWithPart(parts, "mnt", '/');
    ParentPrefix(t, "srv");
    ParentPrefix(t, "opt");
    ParentPrefix(t, "data");
    ParentPrefix(t, "mnt");
    VarLib(parts);
  }

  ghost predicate BelowParentText(s: string) {
    StartsWith(s, "/srv/") || StartsWith(s, "/opt/") || StartsWith(s, "/var/lib/") || StartsWith(s, "/data/") ||
    StartsWith(s, "/mnt/")
  }

  lemma {:induction false} ParentPrefix(t: string, a: string)
    ensures StartsWith("/" + t, "/" + a + "/") <==> a + ['/'] <= t
  {
    var s, p := "/" + t, "/" + a + "/";
    assert s[1..] == t && p[1..] == a + ['/'];
    if a + ['/'] <= t {
      assert p == "/" + (a + ['/']);
      assert s[..|p|] == "/" + t[..|p| - 1];
    }
    if p <= s { assert t[..|p| - 1] == s[..|p|][1..]; }
  }

  lemma {:induction false} VarLib(parts: seq<string>)
    requires Free(parts, '/')
    ensures StartsWith("/" + JoinBy(parts, '/'), "/var/lib/") <==>
              |parts| >= 3 && parts[0] == "var" && parts[1] == "lib"
  {
    var t := JoinBy(parts, '/');
    assert "/var/lib/" == "/" + "var/lib" + "/";
    ParentPrefix(t, "var/lib");
    StartsWithPart(parts, "var", '/');
    assert "var/lib" + ['/'] == "var" + ['/'] + ("lib" + ['/']);
    if |parts| >= 2 && parts[0] == "var" {
      StartsWithPart(parts[1..], "lib", '/');
      assert t == "var" + ['/'] + JoinBy(parts[1..], '/');
      PrefixTail("var" + ['/'], "lib" + ['/'], JoinBy(parts[1..], '/'));
    }
    if "var/lib" + ['/'] <= t { assert "var" + ['/'] <= t; }
  }

  lemma PrefixTail(a: string, b: string, t: string)
    ensures a + b <= a + t <==> b <= t
  {
    if a + b <= a + t { assert b == (a + t)[|a|..|a| + |b|] == t[..|b|]; }
  }

  lemma {:induction false} AllowedMeans(s: string)
    ensures (exists i :: 0 <= i < |ALLOWED_PARENTS| && StartsWith(s, ALLOWED_PARENTS[i])) <==> BelowParentText(s)
  {
    assert ALLOWED_PARENTS[0] == "/srv/" && ALLOWED_PARENTS[1] == "/opt/" && ALLOWED_PARENTS[2] == "/var/lib/";
    assert ALLOWED_PARENTS[3] == "/data/" && ALLOWED_PARENTS[4] == "/mnt/" && |ALLOWED_PARENTS| == 5;
  }

  ghost predicate PathText(s: string, parts: seq<string>) {
    PathParts(parts) && s == "/" + JoinBy(parts, '/')
  }

  lemma {:induction false} PartsAreFree(parts: seq<string>)
    requires PathParts(parts)
    ensures Free(parts, '/')
  {
  }

  lemma {:induction false} NormalMeans(s: string)
    ensures |s| > 1 && All(s, RootChar) && Normalized(s) <==> exists parts :: PathText(s, parts)
  {
    hide JoinBy, SplitBy, Components;
    if |s| > 1 && All(s, RootChar) && Normalized(s) {
      var t := s[1..];
      var parts := SplitBy(t, '/');
      ComponentsSplit(t);
      JoinSplit(t, '/');
      assert s == "/" + t;
      forall i | 0 <= i < |parts| ensures PathPart(parts[i]) {
        assert parts[i] in Components(t);
        forall x | x in parts[i] ensures RootChar(x) && x != '/' { PartChars(t, '/', i, x); }
      }
      assert PathText(s, parts);
    }
    if parts :| PathText(s, parts) {
      var t := JoinBy(parts, '/');
      assert s[1..] == t;
      PartsAreFree(parts);
      ComponentsSplit(t);
      SplitJoin(parts, '/');
      FirstChar(parts, '/');
      forall k | 0 <= k < |s| ensures RootChar(s[k]) {
        if k > 0 && s[k] != '/' {
          assert s[k] == t[k - 1];
          JoinChars(parts, '/', s[k]);
          var i :| 0 <= i < |parts| && s[k] in parts[i];
          assert PathPart(parts[i]);
        }
      }
      forall part | part in Components(t) ensures part != "" && part != "." && part != ".." {
        var i :| 0 <= i < |parts| && parts[i] == part;
        assert PathPart(parts[i]);
      }
    }
  }

  /** An absolute path of plain parts, none of them empty or a dot name, below one of the allowed parents. */
  lemma {:induction false} RootMeans(s: string)
    ensures IsDeploymentRoot(s) <==> exists parts :: PathText(s, parts) && BelowParent(parts)
  {
    hide JoinBy, Normalized, PathParts, BelowParentText, All;
    NormalMeans(s);
    AllowedMeans(s);
    forall parts | PathText(s, parts) ensures BelowParentText(s) <==> BelowParent(parts) {
      PartsAreFree(parts);
      ParentMeans(parts);
    }
  }

  // ---------------------------------------------------------------- public origins

  /** Letters, digits, dots and hyphens. */
  ghost predicate NameText(name: string) {
    name != "" && forall x :: x in name ==>
      'a' <= x <= 'z' || 'A' <= x <= 'Z' || '0' <= x <= '9' || x == '.' || x == '-'
  }

  /** No port, an empty one, or a number from 1 to 65535. */
  ghost predicate PortText(port: string) {
    port == "" ||
    (port[0] == ':' && (forall i :: 1 <= i < |port| ==> '0' <= port[i] <= '9') &&
     (|port| > 1 ==> 1 <= Value(port[1..]) <= 65535))
  }

  ghost predicate Lowers(name: string, host: string) {
    && |host| == |name|
    && forall i :: 0 <= i < |name| ==>
         host[i] == if 'A' <= name[i] <= 'Z' then "abcdefghijklmnopqrstuvwxyz"[name[i] as int - 'A' as int] else name[i]
  }

  ghost predicate LetterOrDigit(x: char) {
    'a' <= x <= 'z' || '0' <= x <= '9'
  }

  /** A hostname that is not this machine, starts and ends with a letter or digit and never doubles a dot. */
  ghost predicate PublicHost(host: string) {
    && host != "" && host != "localhost" && host != "127.0.0.1"
    && LetterOrDigit(host[0]) && LetterOrDigit(host[|host| - 1])
    && (forall i :: 0 <= i < |host| - 1 ==> !(host[i] == '.' && host[i + 1] == '.'))
  }

  ghost predicate OriginText(s: string, name: string, port: string, host: string) {
    && (s == "https://" + name + port || s == "https://" + name + port + "/")
    && NameText(name) && PortText(port) && Lowers(name, host) && PublicHost(host)
  }

  lemma LowerCaseMeans(c: char)
    ensures LowerCase(c) == if 'A' <= c <= 'Z' then "abcdefghijklmnopqrstuvwxyz"[c as int - 'A' as int] else c
  {
  }

  lemma {:induction false} LowersMeans(name: string, host: string)
    ensures host == LowerCased(name) <==> Lowers(name, host)
  {
    hide LowerCase;
    forall i | 0 <= i < |name|
      ensures LowerCased(name)[i] ==
              if 'A' <= name[i] <= 'Z' then "abcdefghijklmnopqrstuvwxyz"[name[i] as int - 'A' as int] else name[i]
    {
      LowerCaseMeans(name[i]);
    }
  }

  /** The hostname rules, for the lower-case form of a name. */
  lemma {:induction false} HostMeans(name: string, host: string)
    requires host == LowerCased(name) && forall x :: x in name ==> AuthorityChar(x)
    ensures HostnameAccepted(host) <==> NameText(name) && PublicHost(host)
  {
    assert |host| == |name|;
    forall i | 0 <= i < |name|
      ensures (Lower(host[i]) || IsDigit(host[i]) || host[i] == '.' || host[i] == '-') <==> name[i] != ':'
      ensures host[i] == LowerCase(name[i])
    {
      assert name[i] in name;
    }
    if HostnameAccepted(host) {
      forall x | x in name ensures x != ':' {
        var i :| 0 <= i < |name| && name[i] == x;
        assert Lower(host[i]) || IsDigit(host[i]) || host[i] == '.' || host[i] == '-';
      }
      forall i | 0 <= i < |host| - 1 ensures !(host[i] == '.' && host[i + 1] == '.') {
      }
    }
    if NameText(name) && PublicHost(host) {
      forall i | 0 <= i < |host| ensures Lower(host[i]) || IsDigit(host[i]) || host[i] == '.' || host[i] == '-' {
        assert name[i] in name;
      }
      assert !HasPair(host, '.', '.');
    }
  }

  /** A name and what follows it from the first colon on. */
  ghost predicate Divides(authority: string, name: string, port: string) {
    authority == name + port && ':' !in name && (port != "" ==> port[0] == ':')
  }

  lemma {:induction false} Division(authority: string) returns (name: string, port: string)
    ensures Divides(authority, name, port) && name == Before(authority, ':')
    ensures After(authority, ':') == if port == "" then "" else port[1..]
  {
    if |authority| == 0 {
      name, port := "", "";
    } else if authority[0] == ':' {
      name, port := "", authority;
    } else {
      name, port := Division(authority[1..]);
      name := [authority[0]] + name;
      assert authority == [authority[0]] + authority[1..];
    }
  }

  lemma {:induction false} OneDivision(authority: string, name: string, port: string)
    requires Divides(authority, name, port)
    ensures name == Before(authority, ':') && After(authority, ':') == if port == "" then "" else port[1..]
  {
    if |name| > 0 {
      assert authority[0] == name[0] && authority[1..] == name[1..] + port;
      OneDivision(authority[1..], name[1..], port);
    } else {
      assert authority == port;
    }
  }

  lemma {:induction false} PortMeans(port: string)
    requires port != "" ==> port[0] == ':'
    ensures PortAccepted(if port == "" then "" else port[1..]) <==> PortText(port)
  {
    if port != "" {
      var digits := port[1..];
      assert forall i :: 1 <= i < |port| ==> port[i] == digits[i - 1];
      if All(digits, IsDigit) {
        forall i | 1 <= i < |port| ensures '0' <= port[i] <= '9' { assert IsDigit(digits[i - 1]); }
      }
    }
  }

  lemma {:induction false} TextChars(name: string, port: string)
    requires NameText(name) && PortText(port)
    ensures All(name + port, AuthorityChar) && ':' !in name && (port != "" ==> port[0] == ':')
    ensures name + port != "" && (name + port)[|name + port| - 1] != '/'
  {
    var s := name + port;
    forall i | 0 <= i < |s| ensures AuthorityChar(s[i]) {
      if i < |name| { assert s[i] == name[i] && name[i] in name; } else { assert s[i] == port[i - |name|]; }
    }
    assert AuthorityChar(s[|s| - 1]);
  }

  /** An HTTPS origin: a public name, perhaps a port, perhaps one closing slash. */
  lemma {:induction false} OriginMeans(s: string, o: Origin)
    ensures PublicOrigin(Str(s)) == Ok(o) <==>
            exists name, port :: OriginText(s, name, port, o.host) && o.url == "https://" + name + port
  {
    hide IsPublicOrigin, OriginText, Hostname;
    if PublicOrigin(Str(s)) == Ok(o) {
      var name, port := OriginFound(s);
      assert "https://" + (name + port) == "https://" + name + port;
    }
    if exists name, port :: OriginText(s, name, port, o.host) && o.url == "https://" + name + port {
      var name, port :| OriginText(s, name, port, o.host) && o.url == "https://" + name + port;
      OriginPasses(s, name, port, o.host);
      assert "https://" + (name + port) == "https://" + name + port;
    }
  }

  lemma {:induction false} OriginFound(s: string) returns (name: string, port: string)
    requires IsPublicOrigin(s)
    ensures OriginText(s, name, port, Hostname(s)) && StripSlash(s[|SCHEME|..]) == name + port
  {
    hide HostnameAccepted, PortAccepted, NameText, PortText, PublicHost, Lowers, LowerCased, Before, After;
    var rest := s[|SCHEME|..];
    var authority := StripSlash(rest);
    name, port := Division(authority);
    assert s == SCHEME + rest;
    assert rest == authority || rest == authority + "/";
    assert SCHEME + (name + port) == SCHEME + name + port && SCHEME + (name + port + "/") == SCHEME + name + port + "/";
    forall x | x in name ensures AuthorityChar(x) {
      var i :| 0 <= i < |name| && name[i] == x;
      assert authority[i] == x;
    }
    HostMeans(name, Hostname(s));
    LowersMeans(name, Hostname(s));
    PortMeans(port);
  }

  lemma {:induction false} OriginPasses(s: string, name: string, port: string, host: string)
    requires OriginText(s, name, port, host)
    ensures IsPublicOrigin(s) && Hostname(s) == host && StripSlash(s[|SCHEME|..]) == name + port
  {
    hide HostnameAccepted, PortAccepted, NameText, PortText, PublicHost, Lowers, LowerCased, Before, After;
    var authority := name + port;
    TextChars(name, port);
    assert SCHEME + (name + port) == SCHEME + name + port && SCHEME + (name + port + "/") == SCHEME + name + port + "/";
    var rest := s[|SCHEME|..];
    assert rest == authority || rest == authority + "/";
    assert StripSlash(rest) == authority by { if rest == authority + "/" { assert rest[..|rest| - 1] == authority; } }
    OneDivision(authority, name, port);
    LowersMeans(name, host);
    forall x | x in name ensures AuthorityChar(x) {
      var i :| 0 <= i < |name| && name[i] == x;
      assert authority[i] == x;
    }
    HostMeans(name, host);
    PortMeans(port);
  }
}
