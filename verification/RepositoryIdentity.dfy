/**
 * Repository identity: one canonical string for the many spellings of a clone
 * URL. A Go string is taken to be valid UTF-8, one `char` a rune.
 */
module RepositoryIdentity {
  import opened Bytes
  import opened Strings

  datatype Failure = Empty | TooLong | InvalidCharacters | UnsupportedScheme | MissingHost | MissingPath

  const MAX_CLONE_URL_LENGTH := 512
  const MAX_CANONICAL_LENGTH := 255

  // ----- characters

  /** What String.prototype.trim removes. */
  predicate IsSpace(c: char)
  {
    var r := c as int;
    9 <= r <= 13 || r == 32 || r == 0xA0 || r == 0x1680 || 0x2000 <= r <= 0x200A ||
    r in {0x2028, 0x2029, 0x202F, 0x205F, 0x3000, 0xFEFF}
  }

  predicate IsForbidden(c: char)
  {
    IsSpace(c) || c as int < 0x20 || c as int == 0x7F
  }

  predicate IsLetter(c: char) { 'a' <= c <= 'z' || 'A' <= c <= 'Z' }
  predicate IsDigit(c: char) { '0' <= c <= '9' }

  predicate IsSchemeByte(c: char, index: nat)
  {
    IsLetter(c) || (index > 0 && (IsDigit(c) || c in {'+', '.', '-'}))
  }

  /**
   * Lower case of one rune. U+0130 and U+212A are the two runes outside ASCII
   * whose lower case is an ASCII letter; every other rune outside ASCII stays
   * outside it, and the canonical pattern refuses it either way.
   */
  function LowerChar(c: char): char
  {
    if 'A' <= c <= 'Z' then (c as int + 32) as char
    else if c as int == 0x130 then 'i'
    else if c as int == 0x212A then 'k'
    else c
  }

  function ToLower(s: string): (t: string)
    ensures |t| == |s|
  {
    seq(|s|, i requires 0 <= i < |s| => LowerChar(s[i]))
  }

  function Utf16Units(s: string): (n: nat)
    ensures n >= |s|
  {
    if s == "" then 0 else (if s[0] as int > 0xFFFF then 2 else 1) + Utf16Units(s[1..])
  }

  /** utf16Length: one or two units for each rune. */
  method Utf16Length(value: string) returns (units: nat)
    ensures units == Utf16Units(value)
  {
    units := 0;
    for i := 0 to |value|
      invariant units + Utf16Units(value[i..]) == Utf16Units(value)
    {
      assert value[i..][1..] == value[i + 1..];
      units := units + 1;
      if value[i] as int > 0xFFFF {
        units := units + 1;
      }
    }
  }

  function TrimLeft(s: string): string
  {
    if s != "" && IsSpace(s[0]) then TrimLeft(s[1..]) else s
  }

  function TrimRight(s: string): string
  {
    if s != "" && IsSpace(s[|s| - 1]) then TrimRight(s[..|s| - 1]) else s
  }

  function Trim(s: string): string
  {
    TrimRight(TrimLeft(s))
  }

  // ----- the pieces of a clone URL

  /** The length of the run of scheme characters at the start. */
  function SchemeRun(s: string, index: nat): (n: nat)
    ensures n <= |s|
    ensures forall k | 0 <= k < n :: IsSchemeByte(s[k], index + k)
    ensures n < |s| ==> !IsSchemeByte(s[n], index + n)
  {
    if s == "" || !IsSchemeByte(s[0], index) then 0
    else
      var n := SchemeRun(s[1..], index + 1);
      assert forall k | 1 <= k < n + 1 :: s[k] == s[1..][k - 1];
      n + 1
  }

  function SplitScheme(value: string): Option<(string, string)>
  {
    var end := SchemeRun(value, 0);
    if end == 0 || !("://" <= value[end..]) then None
    else Some((ToLower(value[..end]), value[end + 3..]))
  }

  method SplitSchemeLoop(value: string) returns (r: Option<(string, string)>)
    ensures r == SplitScheme(value)
  {
    var end := 0;
    while end < |value| && IsSchemeByte(value[end], end)
      invariant 0 <= end <= |value|
      invariant forall k | 0 <= k < end :: IsSchemeByte(value[k], k)
    {
      end := end + 1;
    }
    SchemeRunIs(value, end);
    if end == 0 || !("://" <= value[end..]) {
      return None;
    }
    r := Some((ToLower(value[..end]), value[end + 3..]));
  }

  lemma SchemeRunIs(s: string, n: nat)
    requires n <= |s|
    requires forall k | 0 <= k < n :: IsSchemeByte(s[k], k)
    requires n < |s| ==> !IsSchemeByte(s[n], n)
    ensures SchemeRun(s, 0) == n
  {
  }

  /** The text before the first "@", unless a "/" comes first, and the rest. */
  function SplitUserinfo(value: string): (r: (string, string))
    ensures r.0 + r.1 == value
  {
    var at := IndexAny(value, {'@'});
    if at < 0 || '/' in value[..at] then ("", value) else (value[..at + 1], value[at + 1..])
  }

  predicate StartsWithPort(rest: string)
  {
    var end := DigitRun(rest);
    end > 0 && (end == |rest| || rest[end] == '/')
  }

  function DigitRun(s: string): (n: nat)
    ensures n <= |s|
    ensures forall k | 0 <= k < n :: IsDigit(s[k])
    ensures n < |s| ==> !IsDigit(s[n])
  {
    if s == "" || !IsDigit(s[0]) then 0 else 1 + DigitRun(s[1..])
  }

  method StartsWithPortLoop(rest: string) returns (r: bool)
    ensures r == StartsWithPort(rest)
  {
    var digits := 0;
    while digits < |rest| && IsDigit(rest[digits])
      invariant 0 <= digits <= |rest|
      invariant forall k | 0 <= k < digits :: IsDigit(rest[k])
    {
      digits := digits + 1;
    }
    assert digits == DigitRun(rest);
    r := digits > 0 && (digits == |rest| || rest[digits] == '/');
  }

  /** "userinfo@host:path": after the first "@", with no "/" before it, a ":" comes before any "/". */
  predicate IsUserinfoForm(value: string)
  {
    var at := IndexAny(value, {'@'});
    at >= 0 && '/' !in value[..at] && ColonComesFirst(value[at + 1..])
  }

  predicate ColonComesFirst(rest: string)
  {
    var k := IndexAny(rest, {'/', ':'});
    k > 0 && rest[k] == ':'
  }

  /** The bare "host:path", told apart from "host:8443/path". */
  predicate IsHostForm(value: string)
  {
    var c := IndexAny(value, {'/', ':', '@'});
    c > 0 && value[c] == ':' && !StartsWithPort(value[c + 1..])
  }

  predicate IsScpLike(value: string)
  {
    IsUserinfoForm(value) || IsHostForm(value)
  }

  predicate AllDigits(s: string)
  {
    forall c | c in s :: IsDigit(c)
  }

  /** A trailing ":port" of one to five digits. */
  function SplitPort(host: string): Option<(string, string)>
  {
    var colon := LastIndex(host, ':');
    if colon <= 0 || colon == |host| - 1 then None
    else
      var port := host[colon + 1..];
      if |port| > 5 || !AllDigits(port) then None else Some((host[..colon], port))
  }

  method SplitPortLoop(host: string) returns (r: Option<(string, string)>)
    ensures r == SplitPort(host)
  {
    var colon := LastIndex(host, ':');
    if colon <= 0 || colon == |host| - 1 {
      return None;
    }
    var port := host[colon + 1..];
    if |port| > 5 {
      return None;
    }
    for index := 0 to |port|
      invariant AllDigits(port[..index])
    {
      if port[index] < '0' || port[index] > '9' {
        assert port[index] in port;
        return None;
      }
      assert port[..index + 1] == port[..index] + [port[index]];
    }
    assert port[..|port|] == port;
    r := Some((host[..colon], port));
  }

  predicate EndsWithGit(s: string)
  {
    |s| >= 4 && s[|s| - 4] == '.' && s[|s| - 3] in {'g', 'G'} && s[|s| - 2] in {'i', 'I'} && s[|s| - 1] in {'t', 'T'}
  }

  function TrimGitSuffix(segment: string): string
  {
    if EndsWithGit(segment) then segment[..|segment| - 4] else segment
  }

  // ----- canonicalisation

  /** The default port of a scheme a clone URL may carry, or "". */
  function DefaultPort(scheme: string): string
  {
    if scheme == "https" then "443"
    else if scheme == "http" then "80"
    else if scheme == "ssh" then "22"
    else if scheme == "git" then "9418"
    else ""
  }

  /** Where the parts of a value lie. The scheme is "" when there is none. */
  datatype Located = Located(scheme: string, authority: string, path: string)

  function CutAtSlash(rest: string): (string, string)
  {
    var slash := IndexAny(rest, {'/'});
    if slash >= 0 then (rest[..slash], rest[slash + 1..]) else (rest, "")
  }

  function Locate(trimmed: string): Result<Located, Failure>
  {
    match SplitScheme(trimmed)
    case Some((scheme, rest)) =>
      if DefaultPort(scheme) == "" then Err(UnsupportedScheme)
      else Ok(Located(scheme, CutAtSlash(rest).0, CutAtSlash(rest).1))
    case None =>
      if IsScpLike(trimmed) then
        var colon := IndexAny(trimmed, {':'});
        if colon < 0 then Err(MissingPath) else Ok(Located("ssh", trimmed[..colon], trimmed[colon + 1..]))
      else if '/' !in trimmed then Err(MissingPath)
      else Ok(Located("", CutAtSlash(trimmed).0, CutAtSlash(trimmed).1))
  }

  /** An authority without its userinfo. */
  function HostOf(authority: string): string
  {
    authority[LastIndex(authority, '@') + 1..]
  }

  function HostAndPort(scheme: string, host: string): (string, string)
  {
    match SplitPort(host)
    case Some((name, port)) => (ToLower(name), if scheme != "" && DefaultPort(scheme) == port then "" else port)
    case None => (ToLower(host), "")
  }

  /** The trimmed pieces that are not empty. */
  function NonEmpty(pieces: seq<string>): (r: seq<string>)
    ensures forall p | p in r :: p != ""
  {
    if pieces == [] then []
    else (if Trim(pieces[0]) == "" then [] else [Trim(pieces[0])]) + NonEmpty(pieces[1..])
  }

  function Segments(path: string): (r: seq<string>)
    ensures forall p | p in r :: p != ""
  {
    NonEmpty(Split(path, '/'))
  }

  function Last<T>(s: seq<T>): T
    requires s != []
  {
    s[|s| - 1]
  }

  function WithoutGit(segments: seq<string>): (r: seq<string>)
    requires segments != []
    ensures |r| == |segments|
  {
    segments[..|segments| - 1] + [TrimGitSuffix(Last(segments))]
  }

  function Assemble(host: string, port: string, segments: seq<string>): string
  {
    host + (if port == "" then "" else ":" + port) + "/" + Join(segments, "/")
  }

  predicate IsHostChar(c: char) { 'a' <= c <= 'z' || IsDigit(c) || c == '.' || c == '-' }
  predicate IsSegmentChar(c: char) { IsLetter(c) || IsDigit(c) || c in {'.', '_', '~', '-'} }

  predicate IsHost(s: string)
  {
    s != "" && s[0] != '.' && s[0] != '-' && forall c | c in s :: IsHostChar(c)
  }

  predicate IsPort(s: string)
  {
    1 <= |s| <= 5 && AllDigits(s)
  }

  predicate IsSegment(s: string)
  {
    s != "" && forall c | c in s :: IsSegmentChar(c)
  }

  /** The canonical pattern: a host, at most one port, one or more segments. */
  predicate MatchesCanonical(s: string)
  {
    var (head, tail) := CutAtSlash(s);
    var colon := IndexAny(head, {':'});
    && '/' in s
    && (forall p | p in Split(tail, '/') :: IsSegment(p))
    && if colon < 0 then IsHost(head) else IsHost(head[..colon]) && IsPort(head[colon + 1..])
  }

  /** From the parts of a value to its canonical form. */
  function Compose(host: string, port: string, path: string): Result<string, Failure>
  {
    var segments := Segments(path);
    if segments == [] then Err(MissingPath)
    else if Last(WithoutGit(segments)) == "" then Err(MissingPath)
    else Checked(Assemble(host, port, WithoutGit(segments)))
  }

  function Checked(canonical: string): Result<string, Failure>
  {
    if Utf16Units(canonical) > MAX_CANONICAL_LENGTH then Err(TooLong)
    else if !MatchesCanonical(canonical) then Err(InvalidCharacters)
    else Ok(canonical)
  }

  function Reduce(l: Located): Result<string, Failure>
  {
    var host := HostOf(l.authority);
    if host == "" then Err(MissingHost)
    else Compose(HostAndPort(l.scheme, host).0, HostAndPort(l.scheme, host).1, l.path)
  }

  predicate Clean(s: string)
  {
    forall c | c in s :: !IsForbidden(c)
  }

  function Canonicalise(raw: string): Result<string, Failure>
  {
    var trimmed := Trim(raw);
    if trimmed == "" then Err(Empty)
    else if Utf16Units(trimmed) > MAX_CLONE_URL_LENGTH then Err(TooLong)
    else if !Clean(trimmed) then Err(InvalidCharacters)
    else match Locate(trimmed)
      case Err(e) => Err(e)
      case Ok(l) => Reduce(l)
  }

  /** CanonicaliseCloneURL, in the order the source takes its steps. */
  method CanonicaliseCloneURL(raw: string) returns (r: Result<string, Failure>)
    ensures r == Canonicalise(raw)
  {
    var trimmed := Trim(raw);
    if trimmed == "" {
      return Err(Empty);
    }
    var length := Utf16Length(trimmed);
    if length > MAX_CLONE_URL_LENGTH {
      return Err(TooLong);
    }
    if exists c | c in trimmed :: IsForbidden(c) {
      return Err(InvalidCharacters);
    }
    var authority, path, scheme := "", "", "";
    var declared := SplitSchemeLoop(trimmed);
    if declared.Some? {
      if DefaultPort(declared.value.0) == "" {
        return Err(UnsupportedScheme);
      }
      scheme := declared.value.0;
      var rest := declared.value.1;
      var slash := IndexAny(rest, {'/'});
      if slash >= 0 {
        authority, path := rest[..slash], rest[slash + 1..];
      } else {
        authority, path := rest, "";
      }
    } else if IsScpLike(trimmed) {
      ScpHasColon(trimmed);
      var colon := IndexAny(trimmed, {':'});
      authority, path := trimmed[..colon], trimmed[colon + 1..];
      scheme := "ssh";
    } else {
      var slash := IndexAny(trimmed, {'/'});
      if slash < 0 {
        return Err(MissingPath);
      }
      authority, path := trimmed[..slash], trimmed[slash + 1..];
    }
    assert Locate(trimmed) == Ok(Located(scheme, authority, path));
    r := ReduceLoop(scheme, authority, path);
  }

  method HostAndPortOf(scheme: string, host: string) returns (name: string, port: string)
    ensures (name, port) == HostAndPort(scheme, host)
  {
    name, port := host, "";
    var declared := SplitPortLoop(host);
    if declared.Some? {
      name, port := declared.value.0, declared.value.1;
      if scheme != "" && DefaultPort(scheme) == port {
        port := "";
      }
    }
    name := ToLower(name);
  }

  /** The trimmed pieces of a path that are not empty. */
  method SegmentsLoop(path: string) returns (segments: seq<string>)
    ensures segments == Segments(path)
  {
    segments := [];
    var pieces := Split(path, '/');
    for i := 0 to |pieces|
      invariant segments + NonEmpty(pieces[i..]) == Segments(path)
    {
      NextPiece(segments, pieces, i);
      var segment := Trim(pieces[i]);
      if segment != "" {
        segments := segments + [segment];
      }
    }
    assert pieces[|pieces|..] == [];
  }

  lemma NextPiece(front: seq<string>, pieces: seq<string>, i: nat)
    requires i < |pieces|
    ensures front + NonEmpty(pieces[i..]) ==
            (if Trim(pieces[i]) == "" then front else front + [Trim(pieces[i])]) + NonEmpty(pieces[i + 1..])
  {
    var rest := NonEmpty(pieces[i + 1..]);
    assert pieces[i..][0] == pieces[i] && pieces[i..][1..] == pieces[i + 1..];
    assert [] + rest == rest;
    assert front + ([Trim(pieces[i])] + rest) == front + [Trim(pieces[i])] + rest;
  }

  /**
   * The second half of CanonicaliseCloneURL, from the located parts to the
   * canonical form; the source writes both halves and the two helpers in one body.
   */
  method ReduceLoop(scheme: string, authority: string, path: string) returns (r: Result<string, Failure>)
    ensures r == Reduce(Located(scheme, authority, path))
  {
    var host := authority;
    var at := LastIndex(authority, '@');
    if at >= 0 {
      host := authority[at + 1..];
    }
    assert host == HostOf(authority);
    if host == "" {
      return Err(MissingHost);
    }
    var name, port := HostAndPortOf(scheme, host);
    assert Reduce(Located(scheme, authority, path)) == Compose(name, port, path);
    r := ComposeLoop(name, port, path);
  }

  method ComposeLoop(name: string, port: string, path: string) returns (r: Result<string, Failure>)
    ensures r == Compose(name, port, path)
  {
    var segments := SegmentsLoop(path);
    if |segments| == 0 {
      return Err(MissingPath);
    }
    segments := segments[|segments| - 1 := TrimGitSuffix(segments[|segments| - 1])];
    assert segments == WithoutGit(Segments(path));
    if segments[|segments| - 1] == "" {
      return Err(MissingPath);
    }
    var canonical := name;
    if port != "" {
      canonical := canonical + ":" + port;
    }
    canonical := canonical + "/" + Join(segments, "/");
    assert canonical == Assemble(name, port, segments);
    var length := Utf16Length(canonical);
    if length > MAX_CANONICAL_LENGTH {
      return Err(TooLong);
    }
    if !MatchesCanonical(canonical) {
      return Err(InvalidCharacters);
    }
    r := Ok(canonical);
  }

  lemma ScpHasColon(value: string)
    requires IsScpLike(value)
    ensures IndexAny(value, {':'}) >= 0
  {
    assert ':' in value;
  }

  /** SanitiseCloneURL: drop what may be a credential, rewrite nothing else. */
  function Sanitise(raw: string): string
  {
    var trimmed := Trim(raw);
    match SplitScheme(trimmed)
    case Some((scheme, rest)) =>
      var (userinfo, remainder) := SplitUserinfo(rest);
      scheme + "://" + (if scheme != "ssh" || ':' in userinfo then "" else userinfo) + remainder
    case None =>
      var (userinfo, remainder) := SplitUserinfo(trimmed);
      if userinfo == "" then trimmed
      else (if ':' in userinfo then "" else userinfo) + remainder
  }
}
