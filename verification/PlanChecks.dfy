/**
 The checks that the deployment planner and the package inspector share (scripts/environmentctl.py):
 identifiers, deployment directories, public origins and JSON shapes.
 */
module PlanChecks {
  import opened Text

  datatype Json =
    | Null
    | Bool(b: bool)
    | Int(n: int)
    | Str(s: string)
    | List(items: seq<Json>)
    | Object(fields: map<string, Json>)
    | Other

  /** A check either yields its value or refuses with a diagnostic. */
  datatype Result<+T> = Ok(value: T) | Refused(reason: string) {
    predicate IsFailure() {
      Refused?
    }

    function PropagateFailure<U>(): Result<U>
      requires Refused?
    {
      Refused(reason)
    }

    function Extract(): T
      requires Ok?
    {
      value
    }
  }

  /** A file: how many bytes it has and the document they spell. */
  datatype Document = Document(size: nat, json: Json)

  /** read_json: a file beyond the limit is refused. */
  function ReadJson(file: Document, limit: nat): Result<Json> {
    if file.size <= limit then Ok(file.json) else Refused("JSON file exceeds its size limit")
  }

  function Require(condition: bool, reason: string): Result<()> {
    if condition then Ok(()) else Refused(reason)
  }

  predicate Lower(c: char) { 'a' <= c <= 'z' }

  predicate Upper(c: char) { 'A' <= c <= 'Z' }

  predicate Alnum(c: char) { Lower(c) || Upper(c) || IsDigit(c) }

  predicate All(s: string, p: char -> bool) {
    forall i :: 0 <= i < |s| ==> p(s[i])
  }

  predicate HasPair(s: string, a: char, b: char) {
    exists i :: 0 <= i < |s| - 1 && s[i] == a && s[i + 1] == b
  }

  predicate StartsWith(s: string, prefix: string) {
    prefix <= s
  }

  function ObjectKeys(value: Json, keys: set<string>): Result<map<string, Json>> {
    if value.Object? && value.fields.Keys == keys then Ok(value.fields) else Refused("missing or unsupported fields")
  }

  function PositiveInt(value: Json, maximum: int): Result<int> {
    if value.Int? && 0 < value.n <= maximum then Ok(value.n) else Refused("expected a positive integer")
  }

  const MAX_ID: int := 9223372036854775807

  /** Lowercase words of letters and digits joined by single hyphens, starting with a letter, at most 48 characters. */
  predicate IsIdentifier(s: string) {
    && 0 < |s| <= 48 && Lower(s[0]) && s[|s| - 1] != '-'
    && All(s, c => Lower(c) || IsDigit(c) || c == '-')
    && !HasPair(s, '-', '-')
  }

  function Identifier(value: Json): Result<string> {
    if value.Str? && IsIdentifier(value.s) then Ok(value.s) else Refused("invalid identifier")
  }

  // ---------------------------------------------------------------- deployment directories

  /** The components of a path between its slashes. */
  function Components(s: string): (parts: seq<string>)
    ensures |parts| > 0
  {
    if |s| == 0 then [""]
    else
      var rest := Components(s[1..]);
      if s[0] == '/' then [""] + rest else [[s[0]] + rest[0]] + rest[1..]
  }

  /** A path that PurePosixPath prints back unchanged and that never steps upwards. */
  predicate Normalized(s: string) {
    |s| > 0 && s[0] == '/' &&
    forall part :: part in Components(s[1..]) ==> part != "" && part != "." && part != ".."
  }

  predicate RootChar(c: char) {
    Alnum(c) || c == '_' || c == '.' || c == '/' || c == '-'
  }

  const ALLOWED_PARENTS: seq<string> := ["/srv/", "/opt/", "/var/lib/", "/data/", "/mnt/"]

  predicate IsDeploymentRoot(s: string) {
    && 1 < |s| && All(s, RootChar) && Normalized(s)
    && exists i :: 0 <= i < |ALLOWED_PARENTS| && StartsWith(s, ALLOWED_PARENTS[i])
  }

  function DeploymentRoot(value: Json): Result<string> {
    if value.Str? && IsDeploymentRoot(value.s) then Ok(value.s) else Refused("deploy_root: use an instance directory")
  }

  // ---------------------------------------------------------------- public origins

  const SCHEME: string := "https://"

  /** An accepted origin without its trailing slash, and its hostname. */
  datatype Origin = Origin(url: string, host: string)

  predicate AuthorityChar(c: char) {
    Alnum(c) || c == '.' || c == ':' || c == '-'
  }

  function StripSlash(s: string): string {
    if |s| > 0 && s[|s| - 1] == '/' then s[..|s| - 1] else s
  }

  function LowerCase(c: char): char {
    if Upper(c) then (c as int + 32) as char else c
  }

  function LowerCased(s: string): string {
    seq(|s|, i requires 0 <= i < |s| => LowerCase(s[i]))
  }

  /** urlsplit(url).hostname for a text of the accepted shape. */
  function Hostname(url: string): string {
    if StartsWith(url, SCHEME) then LowerCased(Before(StripSlash(url[|SCHEME|..]), ':')) else ""
  }

  /** A missing or empty port is allowed; otherwise it must be a number from 1 to 65535. */
  predicate PortAccepted(port: string) {
    All(port, IsDigit) && (|port| > 0 ==> 0 < Value(port) <= 65535)
  }

  predicate HostnameAccepted(host: string) {
    && |host| > 0 && host != "localhost" && host != "127.0.0.1"
    && All(host, c => Lower(c) || IsDigit(c) || c == '.' || c == '-')
    && (Lower(host[0]) || IsDigit(host[0])) && (Lower(host[|host| - 1]) || IsDigit(host[|host| - 1]))
    && !HasPair(host, '.', '.')
  }

  predicate IsPublicOrigin(s: string) {
    StartsWith(s, SCHEME) &&
    var authority := StripSlash(s[|SCHEME|..]);
    && |authority| > 0 && All(authority, AuthorityChar)
    && PortAccepted(After(authority, ':'))
    && HostnameAccepted(Hostname(s))
  }

  function PublicOrigin(value: Json): Result<Origin> {
    if value.Str? && IsPublicOrigin(value.s)
    then Ok(Origin(SCHEME + StripSlash(value.s[|SCHEME|..]), Hostname(value.s)))
    else Refused("a public hostname is required")
  }

  /** Checking an accepted origin again yields the same origin and the same hostname. */
  lemma {:induction false} PublicOriginIsStable(value: Json)
    requires PublicOrigin(value).Ok?
    ensures var origin := PublicOrigin(value).value;
            && PublicOrigin(Str(origin.url)) == Ok(origin)
            && Hostname(origin.url) == origin.host
            && StartsWith(origin.url, SCHEME)
            && All(origin.url, c => AuthorityChar(c) || c == '/')
  {
    var authority := StripSlash(value.s[|SCHEME|..]);
    var url := SCHEME + authority;
    assert url[|SCHEME|..] == authority;
    assert authority[|authority| - 1] != '/';
    assert StripSlash(authority) == authority;
    assert All(SCHEME, c => AuthorityChar(c) || c == '/');
  }
}
