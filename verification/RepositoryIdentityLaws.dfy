/** What canonicalisation promises about every spelling of a repository. */
module RepositoryIdentityLaws {
  import opened Bytes
  import opened Strings
  import opened RepositoryIdentity

  // ----- trimming

  lemma {:induction false} TrimLeftDrops(a: string, s: string)
    requires forall c | c in a :: IsSpace(c)
    requires s != "" ==> !IsSpace(s[0])
    ensures TrimLeft(a + s) == s
  {
    if a == "" {
      assert a + s == s;
    } else {
      assert (a + s)[1..] == a[1..] + s;
      TrimLeftDrops(a[1..], s);
    }
  }

  lemma {:induction false} TrimRightDrops(s: string, b: string)
    requires forall c | c in b :: IsSpace(c)
    requires s != "" ==> !IsSpace(s[|s| - 1])
    ensures TrimRight(s + b) == s
  {
    if b == "" {
      assert s + b == s;
    } else {
      assert (s + b)[..|s + b| - 1] == s + b[..|b| - 1];
      TrimRightDrops(s, b[..|b| - 1]);
    }
  }

  lemma TrimPadded(a: string, s: string, b: string)
    requires forall c | c in a + b :: IsSpace(c)
    requires Clean(s) && s != ""
    ensures Trim(a + s + b) == s
  {
    assert a + s + b == a + (s + b);
    assert (s + b)[0] == s[0] && s[0] in s && s[|s| - 1] in s;
    TrimLeftDrops(a, s + b);
    TrimRightDrops(s, b);
  }

  lemma TrimClean(s: string)
    requires Clean(s)
    ensures Trim(s) == s
  {
    if s != "" {
      TrimPadded("", s, "");
      assert "" + s + "" == s;
    }
  }

  // ----- segments

  lemma {:induction false} NonEmptyConcat(a: seq<string>, b: seq<string>)
    ensures NonEmpty(a + b) == NonEmpty(a) + NonEmpty(b)
  {
    if a == [] {
      assert a + b == b;
    } else {
      assert (a + b)[1..] == a[1..] + b;
      NonEmptyConcat(a[1..], b);
    }
  }

  /** Slashes only separate: repeated, leading and trailing ones add no segment. */
  lemma SegmentsConcat(a: string, b: string)
    ensures Segments(a + "/" + b) == Segments(a) + Segments(b)
  {
    SplitConcat(a, '/', b);
    NonEmptyConcat(Split(a, '/'), Split(b, '/'));
  }

  lemma SegmentsOfOne(s: string)
    requires Clean(s) && '/' !in s
    ensures Segments(s) == if s == "" then [] else [s]
  {
    SplitNone(s, '/');
    TrimClean(s);
    assert [s][1..] == [];
    assert NonEmpty([s]) == (if s == "" then [] else [s]) + NonEmpty([]);
  }

  function Slashes(n: nat): string
  {
    if n == 0 then "" else "/" + Slashes(n - 1)
  }

  lemma {:induction false} SegmentsOfSlashes(n: nat)
    ensures Segments(Slashes(n)) == []
  {
    SegmentsOfOne("");
    if n > 0 {
      SegmentsConcat("", Slashes(n - 1));
      SegmentsOfSlashes(n - 1);
      assert "" + "/" + Slashes(n - 1) == Slashes(n);
    }
  }

  /** A path with any number of extra slashes before, between and after its segments. */
  function PathText(segments: seq<string>, extra: seq<nat>): string
    requires |extra| == |segments| + 1
  {
    if segments == [] then Slashes(extra[0])
    else Slashes(extra[0]) + "/" + segments[0] + "/" + PathText(segments[1..], extra[1..])
  }

  predicate IsPiece(s: string)
  {
    s != "" && Clean(s) && '/' !in s
  }

  lemma {:induction false} SegmentsOfPathText(segments: seq<string>, extra: seq<nat>)
    requires |extra| == |segments| + 1
    requires forall s | s in segments :: IsPiece(s)
    ensures Segments(PathText(segments, extra)) == segments
    decreases |segments|
  {
    SegmentsOfSlashes(extra[0]);
    if segments != [] {
      var head, tail := segments[0], PathText(segments[1..], extra[1..]);
      SegmentsOfPathText(segments[1..], extra[1..]);
      assert head in segments;
      SegmentsOfOne(head);
      SegmentsConcat(Slashes(extra[0]) + "/" + head, tail);
      SegmentsConcat(Slashes(extra[0]), head);
      assert segments == [head] + segments[1..];
    }
  }

  lemma SegmentIsPiece(s: string)
    requires IsSegment(s)
    ensures IsPiece(s)
  {
    forall c | c in s
      ensures !IsForbidden(c) && c != '/'
    {
      assert IsSegmentChar(c);
    }
  }

  // ----- spellings

  datatype Shape = Url(scheme: string) | Scp | Bare

  datatype Spelling = Spelling(
    shape: Shape, userinfo: Option<string>, host: string, port: Option<string>, path: string)

  function Authority(sp: Spelling): string
  {
    (if sp.userinfo.Some? then sp.userinfo.value + "@" else "") + sp.host +
    (if sp.port.Some? then ":" + sp.port.value else "")
  }

  function Spell(sp: Spelling): string
  {
    match sp.shape
    case Url(scheme) => scheme + "://" + (Authority(sp) + "/" + sp.path)
    case Scp => Authority(sp) + ":" + sp.path
    case Bare => Authority(sp) + "/" + sp.path
  }

  predicate IsSchemeName(s: string)
  {
    s != "" && forall k | 0 <= k < |s| :: IsSchemeByte(s[k], k)
  }

  /** What the source asks of a value of each shape to read it as that shape. */
  predicate Readable(sp: Spelling)
  {
    && sp.host != "" && '/' !in sp.host && '@' !in sp.host && ':' !in sp.host
    && (sp.userinfo.Some? ==> '/' !in sp.userinfo.value)
    && (sp.port.Some? ==> IsPort(sp.port.value))
    && Clean(Spell(sp)) && Utf16Units(Spell(sp)) <= MAX_CLONE_URL_LENGTH
    && match sp.shape
       case Url(scheme) => IsSchemeName(scheme) && DefaultPort(ToLower(scheme)) != ""
       case Scp =>
         && sp.port.None?
         && (sp.userinfo.Some? ==> ':' !in sp.userinfo.value)
         && (sp.userinfo.None? ==> !StartsWithPort(sp.path) && !(IsSchemeName(sp.host) && "//" <= sp.path))
       case Bare =>
         && (sp.userinfo.Some? ==> ':' !in sp.userinfo.value && sp.port.None?)
  }

  /** The port that is recorded: a port that the scheme implies is not. */
  function EffectivePort(sp: Spelling): string
  {
    if sp.port.None? then ""
    else if sp.shape.Url? && DefaultPort(ToLower(sp.shape.scheme)) == sp.port.value then ""
    else sp.port.value
  }

  lemma CutAtFirstSlash(a: string, b: string)
    requires '/' !in a
    ensures CutAtSlash(a + "/" + b) == (a, b)
  {
    IndexAnyAfter(a, {'/'}, "/" + b);
    assert a + "/" + b == a + ("/" + b);
  }

  lemma SchemeIsSplit(scheme: string, rest: string)
    requires IsSchemeName(scheme)
    ensures SplitScheme(scheme + "://" + rest) == Some((ToLower(scheme), rest))
  {
    var s := scheme + "://" + rest;
    assert s[|scheme|] == ':' && s[..|scheme|] == scheme;
    assert forall k | 0 <= k < |scheme| :: s[k] == scheme[k];
    SchemeRunIs(s, |scheme|);
    assert s[|scheme|..] == "://" + rest;
    assert s[|scheme| + 3..] == rest;
  }

  lemma SchemeRunStops(s: string, i: nat)
    requires i < |s| && !IsSchemeByte(s[i], i)
    ensures SchemeRun(s, 0) <= i
  {
  }

  /** A text whose first ":" does not end a scheme carries none. */
  lemma NoScheme(s: string, a: string, b: string)
    requires s == a + b && ':' !in a
    requires b != "" && !IsSchemeByte(b[0], |a|)
    requires !IsSchemeName(a) || !("://" <= b)
    ensures SplitScheme(s) == None
  {
    var end := SchemeRun(s, 0);
    assert s[|a|] == b[0];
    assert forall j | 0 <= j < |a| :: s[j] == a[j];
    SchemeRunStops(s, |a|);
    if end < |a| {
      assert a[end] in a;
      assert s[end..][0] == a[end];
    } else {
      assert forall j | 0 <= j < end :: IsSchemeByte(s[j], 0 + j);
      assert s[end..] == b;
    }
  }

  lemma HostOfAuthority(userinfo: Option<string>, rest: string)
    requires '@' !in rest
    ensures HostOf((if userinfo.Some? then userinfo.value + "@" else "") + rest) == rest
  {
    if userinfo.Some? {
      LastIndexBefore(userinfo.value, '@', rest);
    } else {
      LastIndexNone(rest, '@');
      assert "" + rest == rest;
    }
  }

  lemma DigitsCarryNoMark(port: string)
    requires AllDigits(port)
    ensures ':' !in port && '/' !in port && '@' !in port
  {
  }

  lemma HostIsSplit(scheme: string, host: string, port: Option<string>)
    requires host != "" && ':' !in host && (port.Some? ==> IsPort(port.value))
    ensures HostAndPort(scheme, host + (if port.Some? then ":" + port.value else "")) ==
            (ToLower(host), if port.None? || (scheme != "" && DefaultPort(scheme) == port.value) then "" else port.value)
  {
    if port.Some? {
      var p := port.value;
      DigitsCarryNoMark(p);
      LastIndexBefore(host, ':', p);
      assert host + (":" + p) == host + [':'] + p;
      assert (host + [':'] + p)[|host| + 1..] == p;
      assert (host + [':'] + p)[..|host|] == host;
    } else {
      LastIndexNone(host, ':');
      assert host + "" == host;
    }
  }

  /** The part of an authority after its userinfo. */
  function HostText(sp: Spelling): string
  {
    sp.host + (if sp.port.Some? then ":" + sp.port.value else "")
  }

  lemma NotInEither(c: char, a: string, b: string)
    requires c !in a && c !in b
    ensures c !in a + b
  {
  }

  function UserinfoText(sp: Spelling): string
  {
    if sp.userinfo.Some? then sp.userinfo.value + "@" else ""
  }

  lemma AuthorityIsJoined(sp: Spelling)
    ensures Authority(sp) == UserinfoText(sp) + HostText(sp)
  {
    var port := if sp.port.Some? then ":" + sp.port.value else "";
    assert UserinfoText(sp) + sp.host + port == UserinfoText(sp) + (sp.host + port);
  }

  lemma HostTextIsPlain(sp: Spelling)
    requires Readable(sp)
    ensures '/' !in HostText(sp) && '@' !in HostText(sp) && HostText(sp) != ""
    ensures '/' !in Authority(sp)
    ensures HostOf(Authority(sp)) == HostText(sp)
    ensures Authority(sp) == UserinfoText(sp) + HostText(sp)
  {
    AuthorityIsJoined(sp);
    if sp.port.Some? {
      DigitsCarryNoMark(sp.port.value);
      NotInEither('/', sp.host, ":" + sp.port.value);
      NotInEither('@', sp.host, ":" + sp.port.value);
    }
    NotInEither('/', UserinfoText(sp), HostText(sp));
    HostOfAuthority(sp.userinfo, HostText(sp));
  }

  lemma UrlIsLocated(sp: Spelling)
    requires Readable(sp) && sp.shape.Url?
    ensures Locate(Spell(sp)) == Ok(Located(ToLower(sp.shape.scheme), Authority(sp), sp.path))
  {
    HostTextIsPlain(sp);
    SchemeIsSplit(sp.shape.scheme, Authority(sp) + "/" + sp.path);
    CutAtFirstSlash(Authority(sp), sp.path);
  }

  lemma ScpWithUserinfoIsScpLike(s: string, u: string, h: string, path: string)
    requires s == u + "@" + h + ":" + path
    requires '/' !in u && ':' !in u && h != "" && '/' !in h && ':' !in h
    ensures IsUserinfoForm(s)
  {
    var a := u + "@" + h;
    var at := FirstAt(u, h);
    assert s == a + (":" + path);
    IndexAnyIs(s, {'@'}, at);
    HostFollowsAt(a, at, path);
    assert s[..at] == a[..at] && s[at + 1..] == a[at + 1..] + (":" + path);
  }

  /** The first "@" of a userinfo and a host, neither with a "/" or ":". */
  lemma FirstAt(u: string, h: string) returns (at: nat)
    requires '/' !in u && ':' !in u && h != "" && '/' !in h && ':' !in h
    ensures var a := u + "@" + h;
            && at < |a| - 1 && a[at] == '@' && '/' !in a && ':' !in a
            && forall k | 0 <= k < at :: a[k] !in {'@'}
  {
    var a := u + "@" + h;
    assert a[|u|] == '@';
    at := IndexAny(a, {'@'});
    NotInEither('/', u + "@", h);
    NotInEither(':', u + "@", h);
  }

  lemma HostFollowsAt(a: string, at: nat, path: string)
    requires at < |a| - 1 && '/' !in a && ':' !in a
    ensures '/' !in a[..at] && ColonComesFirst(a[at + 1..] + (":" + path))
  {
    var h := a[at + 1..];
    assert forall c | c in h :: c in a;
    assert forall c | c in a[..at] :: c in a;
    IndexAnyAfter(h, {'/', ':'}, ":" + path);
  }

  lemma ScpWithoutUserinfoIsScpLike(s: string, h: string, path: string)
    requires s == h + ":" + path
    requires h != "" && '/' !in h && ':' !in h && '@' !in h && !StartsWithPort(path)
    ensures IsHostForm(s)
  {
    assert s == h + (":" + path);
    IndexAnyAfter(h, {'/', ':', '@'}, ":" + path);
    assert s[|h| + 1..] == path;
  }

  lemma ScpIsCut(s: string, a: string, path: string)
    requires s == a + ":" + path && ':' !in a && IsScpLike(s) && SplitScheme(s) == None
    ensures Locate(s) == Ok(Located("ssh", a, path))
  {
    assert s == a + (":" + path);
    IndexAnyAfter(a, {':'}, ":" + path);
    assert s[..|a|] == a && s[|a| + 1..] == path;
  }

  lemma ScpHasNoScheme(a: string, path: string)
    requires ':' !in a && !(IsSchemeName(a) && "//" <= path)
    ensures SplitScheme(a + ":" + path) == None
  {
    var b := ":" + path;
    assert "://" <= b ==> "//" <= path by {
      if "://" <= b {
        assert path[..2] == b[1..3] == "//";
      }
    }
    assert a + ":" + path == a + b;
    NoScheme(a + b, a, b);
  }

  lemma ScpIsLocated(sp: Spelling)
    requires Readable(sp) && sp.shape.Scp?
    ensures Locate(Spell(sp)) == Ok(Located("ssh", Authority(sp), sp.path))
  {
    var a := Authority(sp);
    if sp.userinfo.Some? {
      var u := sp.userinfo.value;
      assert a == u + "@" + sp.host;
      assert a[|u|] == '@';
      ScpWithUserinfoIsScpLike(a + ":" + sp.path, u, sp.host, sp.path);
    } else {
      assert a == sp.host;
      ScpWithoutUserinfoIsScpLike(a + ":" + sp.path, sp.host, sp.path);
    }
    ScpHasNoScheme(a, sp.path);
    ScpIsCut(a + ":" + sp.path, a, sp.path);
  }

  lemma BareIsLocated(sp: Spelling)
    requires Readable(sp) && sp.shape.Bare?
    ensures Locate(Spell(sp)) == Ok(Located("", Authority(sp), sp.path))
  {
    var s, a := Spell(sp), Authority(sp);
    HostTextIsPlain(sp);
    CutAtFirstSlash(a, sp.path);
    assert s == a + "/" + sp.path && s[|a|] == '/';
    BareHasNoScheme(sp);
    BareIsNotScpLike(sp);
  }

  lemma BareHasNoScheme(sp: Spelling)
    requires Readable(sp) && sp.shape.Bare?
    ensures SplitScheme(Spell(sp)) == None
  {
    var s := Spell(sp);
    if sp.port.Some? {
      var b := ":" + sp.port.value + "/" + sp.path;
      assert sp.port.value[0] in sp.port.value;
      assert b[1] == sp.port.value[0];
      assert s == sp.host + b;
      NoScheme(s, sp.host, b);
    } else {
      assert s == Authority(sp) + ("/" + sp.path);
      NoScheme(s, Authority(sp), "/" + sp.path);
    }
  }

  lemma BareIsNotScpLike(sp: Spelling)
    requires Readable(sp) && sp.shape.Bare?
    ensures !IsScpLike(Spell(sp))
  {
    BareIsNotUserinfoForm(sp);
    BareIsNotHostForm(sp);
  }

  lemma BareIsNotHostForm(sp: Spelling)
    requires Readable(sp) && sp.shape.Bare?
    ensures !IsHostForm(Spell(sp))
  {
    if sp.port.Some? {
      BareWithPortIsNotHostForm(sp, sp.port.value);
    } else {
      BareWithoutPortIsNotHostForm(sp);
    }
  }

  lemma BareWithPortIsNotHostForm(sp: Spelling, port: string)
    requires Readable(sp) && sp.shape.Bare? && sp.port == Some(port)
    ensures !IsHostForm(Spell(sp))
  {
    var b := "/" + sp.path;
    assert Spell(sp) == sp.host + ":" + port + b;
    PortIsNotHostForm(Spell(sp), sp.host, port, b);
  }

  lemma BareWithoutPortIsNotHostForm(sp: Spelling)
    requires Readable(sp) && sp.shape.Bare? && sp.port.None?
    ensures !IsHostForm(Spell(sp))
  {
    BareHasNoColon(sp);
    BareIsJoined(Authority(sp), sp.path);
    NoColonNoHostForm(Spell(sp), Authority(sp), "/" + sp.path);
  }

  lemma BareIsJoined(a: string, path: string)
    ensures a + "/" + path == a + ("/" + path)
  {
  }

  lemma BareHasNoColon(sp: Spelling)
    requires Readable(sp) && sp.shape.Bare? && sp.port.None?
    ensures ':' !in Authority(sp)
  {
    AuthorityIsJoined(sp);
    if sp.userinfo.Some? {
      NotInEither(':', sp.userinfo.value, "@");
    }
    assert HostText(sp) == sp.host;
    NotInEither(':', UserinfoText(sp), sp.host);
  }

  lemma PortIsNotHostForm(s: string, h: string, p: string, b: string)
    requires s == h + ":" + p + b && IsPort(p) && b != "" && b[0] == '/'
    requires h != "" && '/' !in h && ':' !in h && '@' !in h
    ensures !IsHostForm(s)
  {
    assert s == h + (":" + p + b);
    IndexAnyAfter(h, {'/', ':', '@'}, ":" + p + b);
    assert s[|h| + 1..] == p + b;
    PortIsSeen(p, b);
  }

  lemma NoColonNoHostForm(s: string, a: string, b: string)
    requires s == a + b && ':' !in a && b != "" && b[0] == '/'
    ensures !IsHostForm(s)
  {
    var c := IndexAny(s, {'/', ':', '@'});
    assert s[|a|] == '/';
    assert c <= |a|;
    assert c < |a| ==> s[c] == a[c];
  }

  lemma PortIsSeen(p: string, b: string)
    requires IsPort(p) && b != "" && b[0] == '/'
    ensures StartsWithPort(p + b)
  {
    var end := DigitRun(p + b);
    assert (p + b)[|p|] == '/';
    assert forall k | 0 <= k < |p| :: (p + b)[k] == p[k] && p[k] in p;
    assert end == |p|;
  }

  lemma BareIsNotUserinfoForm(sp: Spelling)
    requires Readable(sp) && sp.shape.Bare?
    ensures !IsUserinfoForm(Spell(sp))
  {
    var s, a, b := Spell(sp), Authority(sp), "/" + sp.path;
    HostTextIsPlain(sp);
    assert s == a + b;
    if sp.userinfo.Some? {
      assert a == sp.userinfo.value + "@" + sp.host;
      assert ':' !in a;
    } else {
      assert a == HostText(sp);
    }
    NotUserinfoForm(s, a, b);
  }

  lemma NotUserinfoForm(s: string, a: string, b: string)
    requires s == a + b && b != "" && b[0] == '/' && (':' !in a || '@' !in a)
    ensures !IsUserinfoForm(s)
  {
    var at := IndexAny(s, {'@'});
    assert s[|a|] == '/';
    if at >= 0 && '/' !in s[..at] {
      assert at < |a| && s[at] == a[at];
      assert s[at + 1..] == a[at + 1..] + b;
      SlashBeforeColon(a[at + 1..], b);
    }
  }

  lemma SlashBeforeColon(a: string, b: string)
    requires ':' !in a && b != "" && b[0] == '/'
    ensures !ColonComesFirst(a + b)
  {
    var k := IndexAny(a + b, {'/', ':'});
    assert (a + b)[|a|] == '/';
    assert k <= |a|;
    assert k < |a| ==> (a + b)[k] == a[k];
  }

  /**
   * Every readable spelling, padded with any white space, reduces to a form that
   * depends on the lower-cased host, the effective port and the path alone: not on
   * the shape, the userinfo, the scheme, a default port or the padding.
   */
  lemma SpellingReduces(before: string, sp: Spelling, after: string)
    requires Readable(sp)
    requires forall c | c in before + after :: IsSpace(c)
    ensures Canonicalise(before + Spell(sp) + after) == Compose(ToLower(sp.host), EffectivePort(sp), sp.path)
  {
    var scheme := match sp.shape case Url(name) => ToLower(name) case Scp => "ssh" case Bare => "";
    SpellingIsLocated(sp, scheme);
    SpellingHasParts(sp, scheme);
    SpellingIsClean(sp);
    TrimPadded(before, Spell(sp), after);
    ReduceOf(scheme, Authority(sp), HostText(sp), ToLower(sp.host), EffectivePort(sp), sp.path);
  }

  lemma SpellingIsLocated(sp: Spelling, scheme: string)
    requires Readable(sp)
    requires scheme == match sp.shape case Url(name) => ToLower(name) case Scp => "ssh" case Bare => ""
    ensures Locate(Spell(sp)) == Ok(Located(scheme, Authority(sp), sp.path))
  {
    match sp.shape
    case Url(_) => UrlIsLocated(sp);
    case Scp => ScpIsLocated(sp);
    case Bare => BareIsLocated(sp);
  }

  lemma SpellingHasParts(sp: Spelling, scheme: string)
    requires Readable(sp)
    requires scheme == match sp.shape case Url(name) => ToLower(name) case Scp => "ssh" case Bare => ""
    ensures HostOf(Authority(sp)) == HostText(sp) && HostText(sp) != ""
    ensures HostAndPort(scheme, HostText(sp)) == (ToLower(sp.host), EffectivePort(sp))
  {
    HostTextIsPlain(sp);
    HostIsSplit(scheme, sp.host, sp.port);
  }

  lemma SpellingIsClean(sp: Spelling)
    requires Readable(sp)
    ensures Spell(sp) != "" && Clean(Spell(sp)) && Utf16Units(Spell(sp)) <= MAX_CLONE_URL_LENGTH
  {
  }

  lemma ReduceOf(scheme: string, authority: string, text: string, host: string, port: string, path: string)
    requires HostOf(authority) == text && text != "" && HostAndPort(scheme, text) == (host, port)
    ensures Reduce(Located(scheme, authority, path)) == Compose(host, port, path)
  {
  }

  // ----- the canonical form

  predicate LegalParts(host: string, port: string, segments: seq<string>)
  {
    && IsHost(host) && (port == "" || IsPort(port))
    && segments != [] && (forall s | s in segments :: IsSegment(s))
  }

  lemma HostHasNoMarks(host: string)
    requires IsHost(host)
    ensures '/' !in host && ':' !in host && '@' !in host && Clean(host) && ToLower(host) == host
  {
    forall c | c in host
      ensures c !in {'/', ':', '@'} && !IsForbidden(c) && LowerChar(c) == c
    {
      assert IsHostChar(c);
    }
  }

  function Head(host: string, port: string): string
  {
    host + (if port == "" then "" else ":" + port)
  }

  lemma HeadHasNoSlash(host: string, port: string)
    requires IsHost(host) && (port == "" || IsPort(port))
    ensures '/' !in Head(host, port) && Clean(Head(host, port))
    ensures IndexAny(Head(host, port), {':'}) == if port == "" then -1 else |host|
  {
    HostHasNoMarks(host);
    DigitsCarryNoMark(port);
    if port == "" {
      assert Head(host, port) == host;
      IndexAnyNone(host, {':'});
    } else {
      IndexAnyAfter(host, {':'}, ":" + port);
    }
    assert AllDigits(port) ==> Clean(port);
  }

  lemma SegmentsHaveNoSlash(segments: seq<string>)
    requires forall s | s in segments :: IsSegment(s)
    ensures forall s | s in segments :: IsPiece(s)
  {
    forall s | s in segments
      ensures IsPiece(s)
    {
      SegmentIsPiece(s);
    }
  }

  lemma {:induction false} JoinIsClean(segments: seq<string>)
    requires forall s | s in segments :: IsPiece(s)
    ensures Clean(Join(segments, "/"))
  {
    if segments != [] {
      assert IsPiece(segments[0]);
      JoinIsClean(segments[1..]);
    }
  }

  lemma AssembleMatches(host: string, port: string, segments: seq<string>)
    requires LegalParts(host, port, segments)
    ensures MatchesCanonical(Assemble(host, port, segments))
    ensures Clean(Assemble(host, port, segments))
  {
    var head, tail := Head(host, port), Join(segments, "/");
    SegmentsHaveNoSlash(segments);
    HeadHasNoSlash(host, port);
    JoinIsClean(segments);
    JoinSplits(segments, '/');
    CutAtFirstSlash(head, tail);
    assert Assemble(host, port, segments) == head + "/" + tail;
    if port != "" {
      assert head[..|host|] == host && head[|host| + 1..] == port;
    }
    forall c | c in Assemble(host, port, segments)
      ensures !IsForbidden(c)
    {
      assert c in head || c == '/' || c in tail;
    }
  }

  /** The parts that a canonical string is assembled from. */
  lemma CanonicalHasParts(s: string) returns (host: string, port: string, segments: seq<string>)
    requires MatchesCanonical(s)
    ensures LegalParts(host, port, segments)
    ensures s == Assemble(host, port, segments)
  {
    var (head, tail) := CutAtSlash(s);
    CutJoins(s);
    segments := Split(tail, '/');
    SplitJoins(tail, '/');
    host, port := HeadParts(head);
    assert Assemble(host, port, segments) == head + "/" + tail;
  }

  lemma CutJoins(s: string)
    requires '/' in s
    ensures s == CutAtSlash(s).0 + "/" + CutAtSlash(s).1
  {
    var slash := IndexAny(s, {'/'});
    assert s == s[..slash] + "/" + s[slash + 1..];
  }

  lemma HeadParts(head: string) returns (host: string, port: string)
    requires var colon := IndexAny(head, {':'});
             if colon < 0 then IsHost(head) else IsHost(head[..colon]) && IsPort(head[colon + 1..])
    ensures IsHost(host) && (port == "" || IsPort(port)) && Head(host, port) == head
  {
    var colon := IndexAny(head, {':'});
    if colon < 0 {
      host, port := head, "";
    } else {
      host, port := head[..colon], head[colon + 1..];
      assert head == host + ":" + port;
    }
  }

  lemma {:induction false} Utf16OfClean(s: string)
    requires forall c | c in s :: c as int < 0x10000
    ensures Utf16Units(s) == |s|
  {
    if s != "" {
      assert forall c | c in s[1..] :: c in s;
      assert s[0] in s;
      Utf16OfClean(s[1..]);
    }
  }

  // ----- ".git"

  lemma GitIsTrimmed(name: string, suffix: string)
    requires name != "" && !EndsWithGit(name) && (suffix == "" || (|suffix| == 4 && EndsWithGit(suffix)))
    ensures TrimGitSuffix(name + suffix) == name
  {
    var t := name + suffix;
    if suffix == "" {
      assert t == name;
    } else {
      assert t[|t| - 4] == suffix[0] && t[|t| - 3] == suffix[1] && t[|t| - 2] == suffix[2] && t[|t| - 1] == suffix[3];
      assert t[..|t| - 4] == name;
    }
  }

  function WithSuffix(segments: seq<string>, suffix: string): (r: seq<string>)
    requires segments != []
    ensures |r| == |segments|
  {
    segments[..|segments| - 1] + [Last(segments) + suffix]
  }

  lemma SuffixIsDropped(segments: seq<string>, suffix: string)
    requires segments != [] && Last(segments) != "" && !EndsWithGit(Last(segments))
    requires suffix == "" || (|suffix| == 4 && EndsWithGit(suffix))
    ensures WithoutGit(WithSuffix(segments, suffix)) == segments
  {
    GitIsTrimmed(Last(segments), suffix);
    assert segments == segments[..|segments| - 1] + [Last(segments)];
  }

  lemma SuffixKeepsPieces(segments: seq<string>, suffix: string)
    requires segments != [] && forall s | s in segments :: IsSegment(s)
    requires suffix == "" || (|suffix| == 4 && EndsWithGit(suffix))
    ensures forall s | s in WithSuffix(segments, suffix) :: IsPiece(s)
  {
    SegmentsHaveNoSlash(segments);
    var last := Last(segments) + suffix;
    assert IsPiece(Last(segments));
    forall c | c in last
      ensures !IsForbidden(c) && c != '/'
    {
      if c in suffix {
        assert c in {'.', 'g', 'G', 'i', 'I', 't', 'T'};
      }
    }
  }

  /**
   * Spelling independence. For one host, port and list of segments, every readable
   * spelling gives the same canonical string: any padding, shape, userinfo, scheme
   * and host case, a default port, any extra slashes before, between or after the
   * segments, and a ".git" in any case.
   */
  lemma SpellingIndependence(before: string, sp: Spelling, after: string, segments: seq<string>, suffix: string, extra: seq<nat>)
    requires Readable(sp)
    requires forall c | c in before + after :: IsSpace(c)
    requires LegalParts(ToLower(sp.host), EffectivePort(sp), segments) && !EndsWithGit(Last(segments))
    requires suffix == "" || (|suffix| == 4 && EndsWithGit(suffix))
    requires |extra| == |segments| + 1 && sp.path == PathText(WithSuffix(segments, suffix), extra)
    requires |Assemble(ToLower(sp.host), EffectivePort(sp), segments)| <= MAX_CANONICAL_LENGTH
    ensures Canonicalise(before + Spell(sp) + after) == Ok(Assemble(ToLower(sp.host), EffectivePort(sp), segments))
  {
    SpellingReduces(before, sp, after);
    SuffixKeepsPieces(segments, suffix);
    SegmentsOfPathText(WithSuffix(segments, suffix), extra);
    assert IsSegment(Last(segments));
    SuffixIsDropped(segments, suffix);
    ComposeLegal(ToLower(sp.host), EffectivePort(sp), sp.path, segments);
  }

  lemma ComposeLegal(host: string, port: string, path: string, segments: seq<string>)
    requires Segments(path) != [] && WithoutGit(Segments(path)) == segments
    requires LegalParts(host, port, segments)
    ensures Compose(host, port, path) ==
            if |Assemble(host, port, segments)| <= MAX_CANONICAL_LENGTH then Ok(Assemble(host, port, segments)) else Err(TooLong)
  {
    AssembleMatches(host, port, segments);
    CanonicalIsAscii(host, port, segments);
    assert IsSegment(Last(segments));
  }

  lemma CanonicalIsAscii(host: string, port: string, segments: seq<string>)
    requires LegalParts(host, port, segments)
    ensures Utf16Units(Assemble(host, port, segments)) == |Assemble(host, port, segments)|
  {
    JoinIsAscii(segments);
    assert forall c | c in host :: IsHostChar(c);
    Utf16OfClean(Assemble(host, port, segments));
  }

  lemma {:induction false} JoinIsAscii(segments: seq<string>)
    requires forall s | s in segments :: IsSegment(s)
    ensures forall c | c in Join(segments, "/") :: c as int < 0x80
  {
    if segments != [] {
      assert IsSegment(segments[0]);
      assert forall c | c in segments[0] :: IsSegmentChar(c);
      JoinIsAscii(segments[1..]);
    }
  }

  // ----- fixed points

  /** A canonical string, read again as what a human types. */
  function AsBare(host: string, port: string, segments: seq<string>): Spelling
  {
    Spelling(Bare, None, host, if port == "" then None else Some(port), Join(segments, "/"))
  }

  lemma CanonicalIsReadable(host: string, port: string, segments: seq<string>)
    requires LegalParts(host, port, segments)
    requires |Assemble(host, port, segments)| <= MAX_CANONICAL_LENGTH
    ensures Readable(AsBare(host, port, segments))
    ensures Spell(AsBare(host, port, segments)) == Assemble(host, port, segments)
  {
    var sp := AsBare(host, port, segments);
    HostHasNoMarks(host);
    AssembleMatches(host, port, segments);
    CanonicalIsAscii(host, port, segments);
    assert Authority(sp) == Head(host, port);
  }

  lemma JoinEndsWithGit(host: string, port: string, segments: seq<string>)
    requires LegalParts(host, port, segments)
    ensures EndsWithGit(Assemble(host, port, segments)) <==> EndsWithGit(Last(segments))
  {
    var s, last := Assemble(host, port, segments), Last(segments);
    var front := JoinEndsWithLast(segments);
    var prefix := Head(host, port) + "/" + front;
    assert s == prefix + last;
    assert IsSegment(last);
    assert prefix[|prefix| - 1] == '/';
    GitAfterSlash(prefix, last);
  }

  /** A suffix of four characters none of which is "/" cannot reach past a "/". */
  lemma GitAfterSlash(prefix: string, last: string)
    requires prefix != "" && prefix[|prefix| - 1] == '/' && last != ""
    ensures EndsWithGit(prefix + last) <==> EndsWithGit(last)
  {
    var s := prefix + last;
    assert s[|prefix| - 1] == '/';
    assert forall k | 0 <= k < |last| :: s[|prefix| + k] == last[k];
    if |last| >= 4 {
      var n := |last|;
      assert s[|s| - 4] == last[n - 4] && s[|s| - 3] == last[n - 3] && s[|s| - 2] == last[n - 2] && s[|s| - 1] == last[n - 1];
    }
  }

  lemma {:induction false} JoinEndsWithLast(segments: seq<string>) returns (front: string)
    requires segments != []
    ensures Join(segments, "/") == front + Last(segments)
    ensures front == "" || front[|front| - 1] == '/'
  {
    if |segments| == 1 {
      front := "";
    } else {
      var rest := JoinEndsWithLast(segments[1..]);
      front := segments[0] + "/" + rest;
    }
  }

  /**
   * Fixed points: a canonical string canonicalises to itself exactly when it does
   * not still end in ".git".
   */
  lemma CanonicalIsFixed(raw: string, canonical: string)
    requires Canonicalise(raw) == Ok(canonical)
    ensures Canonicalise(canonical) == Ok(canonical) <==> !EndsWithGit(canonical)
  {
    var host, port, segments := CanonicalHasParts(canonical);
    ResultIsBounded(raw, canonical);
    CanonicalIsAscii(host, port, segments);
    CanonicalReduces(host, port, segments);
    JoinEndsWithGit(host, port, segments);
    ComposeCanonical(host, port, segments);
  }

  lemma ComposeCanonical(host: string, port: string, segments: seq<string>)
    requires LegalParts(host, port, segments)
    requires |Assemble(host, port, segments)| <= MAX_CANONICAL_LENGTH
    ensures Compose(host, port, Join(segments, "/")) == Ok(Assemble(host, port, segments)) <==> !EndsWithGit(Last(segments))
  {
    SegmentsOfJoin(segments);
    if EndsWithGit(Last(segments)) {
      ComposeShortens(host, port, Join(segments, "/"), segments);
    } else {
      NothingToTrim(segments);
      ComposeLegal(host, port, Join(segments, "/"), segments);
    }
  }

  lemma NothingToTrim(segments: seq<string>)
    requires segments != [] && !EndsWithGit(Last(segments))
    ensures WithoutGit(segments) == segments
  {
  }

  lemma ComposeShortens(host: string, port: string, path: string, segments: seq<string>)
    requires segments != [] && Segments(path) == segments && EndsWithGit(Last(segments))
    ensures Compose(host, port, path) != Ok(Assemble(host, port, segments))
  {
    AssembleShrinks(host, port, segments);
  }

  lemma CanonicalReduces(host: string, port: string, segments: seq<string>)
    requires LegalParts(host, port, segments)
    requires |Assemble(host, port, segments)| <= MAX_CANONICAL_LENGTH
    ensures Canonicalise(Assemble(host, port, segments)) == Compose(host, port, Join(segments, "/"))
  {
    var sp := AsBare(host, port, segments);
    CanonicalIsReadable(host, port, segments);
    SpellingReduces("", sp, "");
    assert "" + Spell(sp) + "" == Assemble(host, port, segments);
    HostHasNoMarks(host);
  }

  lemma SuffixKeepsSegments(segments: seq<string>, suffix: string)
    requires segments != [] && forall s | s in segments :: IsSegment(s)
    requires |suffix| == 4 && EndsWithGit(suffix)
    ensures forall s | s in WithSuffix(segments, suffix) :: IsSegment(s)
  {
    var last := Last(segments) + suffix;
    assert IsSegment(Last(segments));
    forall c | c in last ensures IsSegmentChar(c) {
      if c in suffix {
        assert c in {'.', 'g', 'G', 'i', 'I', 't', 'T'};
      }
    }
    assert IsSegment(last);
  }

  lemma SuffixIsTrimmed(name: string, suffix: string)
    requires name != "" && |suffix| == 4 && EndsWithGit(suffix)
    ensures TrimGitSuffix(name + suffix) == name
  {
    var t := name + suffix;
    assert t[|t| - 4] == suffix[0] && t[|t| - 3] == suffix[1] && t[|t| - 2] == suffix[2] && t[|t| - 1] == suffix[3];
    assert t[..|t| - 4] == name;
  }

  /** One ".git" is taken off a canonical string, whether or not another one is under it. */
  lemma OneSuffixIsDropped(host: string, port: string, segments: seq<string>, suffix: string)
    requires LegalParts(host, port, segments) && |suffix| == 4 && EndsWithGit(suffix)
    requires |Assemble(host, port, WithSuffix(segments, suffix))| <= MAX_CANONICAL_LENGTH
    ensures Canonicalise(Assemble(host, port, WithSuffix(segments, suffix))) == Ok(Assemble(host, port, segments))
  {
    assert IsSegment(Last(segments));
    SuffixKeepsSegments(segments, suffix);
    CanonicalReduces(host, port, WithSuffix(segments, suffix));
    SuffixIsShorter(host, port, segments, suffix);
    ComposeDropsSuffix(host, port, segments, suffix);
  }

  lemma ComposeDropsSuffix(host: string, port: string, segments: seq<string>, suffix: string)
    requires LegalParts(host, port, segments) && |suffix| == 4 && EndsWithGit(suffix)
    requires |Assemble(host, port, segments)| <= MAX_CANONICAL_LENGTH
    ensures Compose(host, port, Join(WithSuffix(segments, suffix), "/")) == Ok(Assemble(host, port, segments))
  {
    var longer := WithSuffix(segments, suffix);
    assert IsSegment(Last(segments));
    SuffixKeepsSegments(segments, suffix);
    SegmentsOfJoin(longer);
    SuffixIsTrimmed(Last(segments), suffix);
    assert WithoutGit(longer) == segments;
    ComposeLegal(host, port, Join(longer, "/"), segments);
  }

  /**
   * So under two of them the result is no fixed point: it still ends in ".git", and
   * canonicalising it again gives another identity.
   */
  lemma TwoSuffixesAreNotFixed(host: string, port: string, segments: seq<string>)
    requires LegalParts(host, port, segments)
    requires |Assemble(host, port, WithSuffix(WithSuffix(segments, ".git"), ".git"))| <= MAX_CANONICAL_LENGTH
    ensures var once := WithSuffix(segments, ".git");
            var canonical := Assemble(host, port, once);
            && Canonicalise(Assemble(host, port, WithSuffix(once, ".git"))) == Ok(canonical)
            && Canonicalise(canonical) == Ok(Assemble(host, port, segments))
            && Assemble(host, port, segments) != canonical
  {
    var once := WithSuffix(segments, ".git");
    assert EndsWithGit(".git");
    assert IsSegment(Last(segments));
    SuffixKeepsSegments(segments, ".git");
    SuffixIsShorter(host, port, once, ".git");
    SuffixIsShorter(host, port, segments, ".git");
    OneSuffixIsDropped(host, port, once, ".git");
    OneSuffixIsDropped(host, port, segments, ".git");
  }

  lemma SuffixIsShorter(host: string, port: string, segments: seq<string>, suffix: string)
    requires segments != [] && Last(segments) != "" && |suffix| == 4 && EndsWithGit(suffix)
    ensures |Assemble(host, port, segments)| < |Assemble(host, port, WithSuffix(segments, suffix))|
  {
    SuffixIsTrimmed(Last(segments), suffix);
    assert WithoutGit(WithSuffix(segments, suffix)) == segments;
    assert EndsWithGit(Last(segments) + suffix);
    AssembleShrinks(host, port, WithSuffix(segments, suffix));
  }

  lemma OneName(host: string, name: string, suffix: string)
    ensures Assemble(host, "", [name]) == host + "/" + name && WithSuffix([name], suffix) == [name + suffix]
  {
    assert Join([name], "/") == name;
  }

  lemma NameUnderTwoSuffixes(host: string, name: string)
    requires IsHost(host) && IsSegment(name) && |host| + |name| + 9 <= MAX_CANONICAL_LENGTH
    ensures Canonicalise(host + "/" + (name + ".git" + ".git")) == Ok(host + "/" + (name + ".git"))
    ensures Canonicalise(host + "/" + (name + ".git")) == Ok(host + "/" + name)
  {
    OneName(host, name, ".git");
    OneName(host, name + ".git", ".git");
    OneName(host, name + ".git" + ".git", "");
    TwoSuffixesAreNotFixed(host, "", [name]);
  }

  lemma ExampleTexts(host: string, name: string)
    requires host == "h" && name == "a"
    ensures IsHost(host) && IsSegment(name)
    ensures host + "/" + (name + ".git" + ".git") == "h/a.git.git" && host + "/" + (name + ".git") == "h/a.git"
  {
  }

  /** The shortest case. */
  lemma TwoSuffixesExample(raw: string, canonical: string)
    requires raw == "h/a.git.git" && canonical == "h/a.git"
    ensures Canonicalise(raw) == Ok(canonical) && Canonicalise(canonical) != Ok(canonical)
  {
    ExampleTexts("h", "a");
    NameUnderTwoSuffixes("h", "a");
  }

  lemma ResultIsBounded(raw: string, canonical: string)
    requires Canonicalise(raw) == Ok(canonical)
    ensures MatchesCanonical(canonical) && Utf16Units(canonical) <= MAX_CANONICAL_LENGTH
  {
  }

  lemma SegmentsOfJoin(segments: seq<string>)
    requires segments != [] && forall s | s in segments :: IsSegment(s)
    ensures Segments(Join(segments, "/")) == segments
  {
    SegmentsHaveNoSlash(segments);
    JoinSplits(segments, '/');
    NonEmptyOfPieces(segments);
  }

  lemma {:induction false} NonEmptyOfPieces(pieces: seq<string>)
    requires forall p | p in pieces :: IsPiece(p)
    ensures NonEmpty(pieces) == pieces
  {
    if pieces != [] {
      assert IsPiece(pieces[0]);
      TrimClean(pieces[0]);
      NonEmptyOfPieces(pieces[1..]);
    }
  }

  lemma AssembleShrinks(host: string, port: string, segments: seq<string>)
    requires segments != [] && EndsWithGit(Last(segments))
    ensures |Assemble(host, port, WithoutGit(segments))| < |Assemble(host, port, segments)|
  {
    JoinLength(segments);
    JoinLength(WithoutGit(segments));
    assert WithoutGit(segments)[..|segments| - 1] == segments[..|segments| - 1];
  }

  function TotalLength(segments: seq<string>): nat
  {
    if segments == [] then 0 else |segments[0]| + 1 + TotalLength(segments[1..])
  }

  lemma {:induction false} JoinLength(segments: seq<string>)
    requires segments != []
    ensures |Join(segments, "/")| == TotalLength(segments[..|segments| - 1]) + |Last(segments)|
  {
    if |segments| > 1 {
      JoinLength(segments[1..]);
      var front := segments[..|segments| - 1];
      assert front[1..] == segments[1..][..|segments| - 2];
    } else {
      assert segments[..0] == [];
    }
  }

  // ----- sanitising

  /** What follows a dropped userinfo gives the same path and host. */
  lemma CutAfterUserinfo(rest: string, kept: string, remainder: string)
    requires rest == kept + remainder
    requires kept == "" || (kept[|kept| - 1] == '@' && '/' !in kept)
    ensures CutAtSlash(rest).1 == CutAtSlash(remainder).1
    ensures HostOf(CutAtSlash(rest).0) == HostOf(CutAtSlash(remainder).0)
  {
    var a := CutAtSlash(remainder).0;
    var slash := IndexAny(remainder, {'/'});
    if slash >= 0 {
      assert remainder == a + "/" + remainder[slash + 1..];
      assert rest == (kept + a) + "/" + remainder[slash + 1..];
      CutAtFirstSlash(kept + a, remainder[slash + 1..]);
    } else {
      assert '/' !in rest;
      IndexAnyNone(rest, {'/'});
    }
    assert CutAtSlash(rest).0 == kept + a;
    HostAfterUserinfo(kept, a);
  }

  lemma HostAfterUserinfo(kept: string, a: string)
    requires kept == "" || kept[|kept| - 1] == '@'
    ensures HostOf(kept + a) == HostOf(a)
  {
    var at := LastIndex(a, '@');
    if at >= 0 {
      var tail := a[at + 1..];
      assert kept + a == kept + a[..at] + ['@'] + tail;
      LastIndexBefore(kept + a[..at], '@', tail);
    } else if kept != "" {
      assert kept + a == kept[..|kept| - 1] + ['@'] + a;
      LastIndexBefore(kept[..|kept| - 1], '@', a);
    } else {
      assert kept + a == a;
    }
  }

  lemma {:induction false} UnitsConcat(a: string, b: string)
    ensures Utf16Units(a + b) == Utf16Units(a) + Utf16Units(b)
  {
    if a == "" {
      assert a + b == b;
    } else {
      assert (a + b)[1..] == a[1..] + b;
      UnitsConcat(a[1..], b);
    }
  }

  lemma SchemeParts(t: string) returns (name: string)
    requires SplitScheme(t).Some?
    ensures IsSchemeName(name) && t == name + "://" + SplitScheme(t).value.1
    ensures SplitScheme(t).value.0 == ToLower(name)
  {
    var end := SchemeRun(t, 0);
    name := t[..end];
    assert forall k | 0 <= k < end :: IsSchemeByte(t[k], 0 + k);
    assert t[end..] == "://" + t[end + 3..];
  }

  lemma LowerSchemeName(name: string)
    requires IsSchemeName(name)
    ensures IsSchemeName(ToLower(name)) && ToLower(ToLower(name)) == ToLower(name)
    ensures Utf16Units(ToLower(name)) == Utf16Units(name)
    ensures Clean(ToLower(name))
  {
    forall k | 0 <= k < |name|
      ensures IsSchemeByte(ToLower(name)[k], k) && LowerChar(LowerChar(name[k])) == LowerChar(name[k])
      ensures name[k] as int < 0x80 && LowerChar(name[k]) as int < 0x80 && !IsForbidden(LowerChar(name[k]))
    {
      assert IsSchemeByte(name[k], k);
    }
    Utf16OfClean(name);
    Utf16OfClean(ToLower(name));
  }

  lemma AcceptedText(raw: string)
    requires Canonicalise(raw).Ok?
    ensures var t := Trim(raw);
            t != "" && Clean(t) && Utf16Units(t) <= MAX_CLONE_URL_LENGTH &&
            Locate(t).Ok? && Reduce(Locate(t).value) == Canonicalise(raw)
  {
  }

  lemma CleanText(t: string)
    requires t != "" && Clean(t) && Utf16Units(t) <= MAX_CLONE_URL_LENGTH && Locate(t).Ok?
    ensures Canonicalise(t) == Reduce(Locate(t).value)
  {
    TrimClean(t);
  }

  lemma LocateUrl(name: string, rest: string)
    requires IsSchemeName(name)
    ensures Locate(name + "://" + rest) ==
            if DefaultPort(ToLower(name)) == "" then Err(UnsupportedScheme)
            else Ok(Located(ToLower(name), CutAtSlash(rest).0, CutAtSlash(rest).1))
  {
    SchemeIsSplit(name, rest);
  }

  lemma LowerUrlIsClean(name: string, rest: string, rest': string)
    requires IsSchemeName(name) && Clean(rest') && Utf16Units(rest') <= Utf16Units(rest)
    ensures Clean(ToLower(name) + "://" + rest')
    ensures Utf16Units(ToLower(name) + "://" + rest') <= Utf16Units(name + "://" + rest)
  {
    var scheme := ToLower(name);
    LowerSchemeName(name);
    UnitsConcat(name + "://", rest);
    UnitsConcat(scheme + "://", rest');
    UnitsConcat(name, "://");
    UnitsConcat(scheme, "://");
    forall c | c in scheme + "://" + rest'
      ensures !IsForbidden(c)
    {
      assert c in scheme || c in "://" || c in rest';
    }
  }

  /** A URL whose scheme is lower-cased and whose host and path read the same. */
  lemma UrlReadsTheSame(name: string, rest: string, rest': string)
    requires IsSchemeName(name) && DefaultPort(ToLower(name)) != ""
    requires Utf16Units(name + "://" + rest) <= MAX_CLONE_URL_LENGTH
    requires Clean(rest') && Utf16Units(rest') <= Utf16Units(rest)
    requires CutAtSlash(rest).1 == CutAtSlash(rest').1
    requires HostOf(CutAtSlash(rest).0) == HostOf(CutAtSlash(rest').0)
    ensures Canonicalise(ToLower(name) + "://" + rest') ==
            Reduce(Located(ToLower(name), CutAtSlash(rest).0, CutAtSlash(rest).1))
  {
    LowerSchemeName(name);
    LocateUrl(ToLower(name), rest');
    LowerUrlIsClean(name, rest, rest');
    CleanText(ToLower(name) + "://" + rest');
    ReduceLooksAtHostAndPath(ToLower(name), CutAtSlash(rest).0, CutAtSlash(rest').0, CutAtSlash(rest).1);
  }

  lemma ReduceLooksAtHostAndPath(scheme: string, a: string, b: string, path: string)
    requires HostOf(a) == HostOf(b)
    ensures Reduce(Located(scheme, a, path)) == Reduce(Located(scheme, b, path))
  {
  }

  /** With a scheme: dropping the userinfo, or keeping it, changes neither host nor path. */
  lemma SanitisedUrl(raw: string)
    requires Canonicalise(raw).Ok? && SplitScheme(Trim(raw)).Some?
    ensures Canonicalise(Sanitise(raw)) == Canonicalise(raw)
  {
    var t := Trim(raw);
    AcceptedText(raw);
    var name := SchemeParts(t);
    var (scheme, rest) := SplitScheme(t).value;
    var (userinfo, remainder) := SplitUserinfo(rest);
    LocateUrl(name, rest);
    assert forall c | c in rest :: c in t;
    RemainderReadsTheSame(rest);
    var kept := if scheme != "ssh" || ':' in userinfo then remainder else rest;
    SanitisedForm(raw, scheme, rest, kept);
    UrlReadsTheSame(name, rest, kept);
  }

  lemma SanitisedForm(raw: string, scheme: string, rest: string, kept: string)
    requires SplitScheme(Trim(raw)) == Some((scheme, rest))
    requires kept == if scheme != "ssh" || ':' in SplitUserinfo(rest).0 then SplitUserinfo(rest).1 else rest
    ensures Sanitise(raw) == scheme + "://" + kept
  {
    var (userinfo, remainder) := SplitUserinfo(rest);
    if scheme != "ssh" || ':' in userinfo {
      assert scheme + "://" + "" + remainder == scheme + "://" + remainder;
    } else {
      assert scheme + "://" + userinfo + remainder == scheme + "://" + rest;
    }
  }

  lemma RemainderReadsTheSame(rest: string)
    requires Clean(rest)
    ensures var r := SplitUserinfo(rest).1;
            && Clean(r) && Utf16Units(r) <= Utf16Units(rest)
            && CutAtSlash(rest).1 == CutAtSlash(r).1
            && HostOf(CutAtSlash(rest).0) == HostOf(CutAtSlash(r).0)
  {
    var (userinfo, remainder) := SplitUserinfo(rest);
    DropUserinfo(userinfo, remainder);
    UnitsConcat(userinfo, remainder);
    assert forall c | c in remainder :: c in rest;
  }

  lemma DropUserinfo(userinfo: string, remainder: string)
    requires SplitUserinfo(userinfo + remainder) == (userinfo, remainder)
    ensures CutAtSlash(userinfo + remainder).1 == CutAtSlash(remainder).1
    ensures HostOf(CutAtSlash(userinfo + remainder).0) == HostOf(CutAtSlash(remainder).0)
  {
    CutAfterUserinfo(userinfo + remainder, userinfo, remainder);
  }

  /**
   * The values whose host sanitising hides: no scheme, a userinfo with a ":" that
   * is dropped, and a remainder that then looks scp-like.
   */
  predicate LosesHost(raw: string)
  {
    var t := Trim(raw);
    SplitScheme(t).None? && ':' in SplitUserinfo(t).0 && IsScpLike(SplitUserinfo(t).1)
  }

  /** Without a scheme, a userinfo that carries a ":" is only accepted in front of "host/path". */
  lemma SanitisedText(raw: string)
    requires Canonicalise(raw).Ok? && SplitScheme(Trim(raw)).None? && !LosesHost(raw)
    ensures Canonicalise(Sanitise(raw)) == Canonicalise(raw)
  {
    var t := Trim(raw);
    AcceptedText(raw);
    var (userinfo, remainder) := SplitUserinfo(t);
    if ':' in userinfo {
      SanitisedPassword(raw);
      assert Sanitise(raw) == "" + remainder == remainder;
    } else {
      assert Sanitise(raw) == t;
      CleanText(t);
    }
  }

  lemma SanitisedPassword(raw: string)
    requires Canonicalise(raw).Ok? && SplitScheme(Trim(raw)).None? && !LosesHost(raw)
    requires ':' in SplitUserinfo(Trim(raw)).0
    ensures Canonicalise(SplitUserinfo(Trim(raw)).1) == Canonicalise(raw)
  {
    var t := Trim(raw);
    AcceptedText(raw);
    var (userinfo, remainder) := SplitUserinfo(t);
    DropUserinfo(userinfo, remainder);
    UnitsConcat(userinfo, remainder);
    RemainderIsBare(raw);
    assert forall c | c in remainder :: c in t;
    CleanText(remainder);
  }

  lemma UserinfoShape(t: string)
    requires SplitUserinfo(t).0 != ""
    ensures var u := SplitUserinfo(t).0; u[|u| - 1] == '@' && '/' !in u && t == u + SplitUserinfo(t).1
    ensures forall k | 0 <= k < |SplitUserinfo(t).0| - 1 :: t[k] != '@'
  {
  }

  lemma CanonicalHasNoAt(canonical: string)
    requires MatchesCanonical(canonical)
    ensures '@' !in canonical
  {
    var h, p, parts := CanonicalHasParts(canonical);
    HostHasNoMarks(h);
    DigitsCarryNoMark(p);
    JoinHasNoAt(parts);
    assert Head(h, p) + "/" + Join(parts, "/") == canonical;
  }

  lemma AtReachesCanonical(l: Located)
    requires '@' in l.path && Reduce(l).Ok?
    ensures '@' in Reduce(l).value && MatchesCanonical(Reduce(l).value)
  {
    var (name, port) := HostAndPort(l.scheme, HostOf(l.authority));
    AtStays(l.path);
    JoinKeeps(WithoutGit(Segments(l.path)), '@');
    assert Reduce(l).value == Assemble(name, port, WithoutGit(Segments(l.path)));
  }

  lemma PathWithAtIsRefused(l: Located)
    requires '@' in l.path
    ensures Reduce(l).Err?
  {
    if Reduce(l).Ok? {
      AtReachesCanonical(l);
      CanonicalHasNoAt(Reduce(l).value);
    }
  }

  lemma {:induction false} JoinHasNoAt(segments: seq<string>)
    requires forall s | s in segments :: IsSegment(s)
    ensures '@' !in Join(segments, "/")
  {
    if segments != [] {
      assert IsSegment(segments[0]);
      JoinHasNoAt(segments[1..]);
    }
  }

  lemma {:induction false} JoinKeeps(segments: seq<string>, c: char)
    requires exists s | s in segments :: c in s
    ensures c in Join(segments, "/")
  {
    if c !in segments[0] {
      assert exists s | s in segments[1..] :: c in s;
      JoinKeeps(segments[1..], c);
    }
  }

  lemma {:induction false} TrimKeeps(s: string, c: char)
    requires c in s && !IsSpace(c)
    ensures c in Trim(s)
  {
    TrimLeftKeeps(s, c);
    TrimRightKeeps(TrimLeft(s), c);
  }

  lemma {:induction false} TrimLeftKeeps(s: string, c: char)
    requires c in s && !IsSpace(c)
    ensures c in TrimLeft(s)
  {
    if IsSpace(s[0]) {
      assert c in s[1..];
      TrimLeftKeeps(s[1..], c);
    }
  }

  lemma {:induction false} TrimRightKeeps(s: string, c: char)
    requires c in s && !IsSpace(c)
    ensures c in TrimRight(s)
  {
    if IsSpace(s[|s| - 1]) {
      assert c in s[..|s| - 1];
      TrimRightKeeps(s[..|s| - 1], c);
    }
  }

  lemma {:induction false} NonEmptyKeeps(pieces: seq<string>, c: char)
    requires (exists p | p in pieces :: c in p) && !IsSpace(c)
    ensures exists s | s in NonEmpty(pieces) :: c in s
  {
    if c in pieces[0] {
      TrimKeeps(pieces[0], c);
      assert Trim(pieces[0]) in NonEmpty(pieces);
    } else {
      assert exists p | p in pieces[1..] :: c in p;
      NonEmptyKeeps(pieces[1..], c);
      var s :| s in NonEmpty(pieces[1..]) && c in s;
      assert s in NonEmpty(pieces);
    }
  }

  lemma {:induction false} SplitKeeps(s: string, sep: char, c: char)
    requires c in s && c != sep
    ensures exists p | p in Split(s, sep) :: c in p
  {
    var rest := Split(s[1..], sep);
    if s[0] == c {
      assert Split(s, sep)[0] == [s[0]] + rest[0];
      assert c in Split(s, sep)[0];
    } else {
      SplitKeeps(s[1..], sep, c);
      var p :| p in rest && c in p;
      if s[0] == sep {
        assert p in Split(s, sep);
      } else if p == rest[0] {
        assert c in [s[0]] + rest[0];
        assert [s[0]] + rest[0] in Split(s, sep);
      } else {
        assert p in rest[1..];
        assert p in Split(s, sep);
      }
    }
  }

  lemma AtStays(path: string)
    requires '@' in path && Segments(path) != []
    ensures exists s | s in WithoutGit(Segments(path)) :: '@' in s
  {
    SplitKeeps(path, '/', '@');
    NonEmptyKeeps(Split(path, '/'), '@');
    var segments := Segments(path);
    var s :| s in segments && '@' in s;
    var i :| 0 <= i < |segments| && segments[i] == s;
    TrimKeepsAt(s);
    var r := WithoutGit(segments);
    assert r[i] == if i == |segments| - 1 then TrimGitSuffix(s) else s;
    assert r[i] in r;
  }

  lemma TrimKeepsAt(s: string)
    requires '@' in s
    ensures '@' in TrimGitSuffix(s)
  {
    var k :| 0 <= k < |s| && s[k] == '@';
    if EndsWithGit(s) {
      assert k < |s| - 4;
      assert s[..|s| - 4][k] == '@';
    }
  }

  lemma PasswordIsNotScpLike(raw: string)
    requires Canonicalise(raw).Ok? && SplitScheme(Trim(raw)).None?
    requires ':' in SplitUserinfo(Trim(raw)).0
    ensures !IsScpLike(Trim(raw))
  {
    var t := Trim(raw);
    AcceptedText(raw);
    UserinfoShape(t);
    var u := SplitUserinfo(t).0;
    if IsScpLike(t) {
      AtFollowsColon(t, u);
      PathWithAtIsRefused(Locate(t).value);
    }
  }

  lemma AtFollowsColon(t: string, u: string)
    requires ':' in u && u[|u| - 1] == '@' && |u| <= |t| && t[..|u|] == u
    ensures ':' in t && '@' in t[IndexAny(t, {':'}) + 1..]
  {
    var colon := IndexAny(t, {':'});
    var k :| 0 <= k < |u| && u[k] == ':';
    assert t[k] == t[..|u|][k] == ':';
    assert t[|u| - 1] == t[..|u|][|u| - 1] == '@';
    assert colon <= k < |u| - 1;
    assert t[colon + 1..][|u| - 2 - colon] == t[|u| - 1];
  }

  /** What an accepted value holds after a userinfo with a ":". */
  lemma RemainderShape(raw: string)
    requires Canonicalise(raw).Ok? && SplitScheme(Trim(raw)).None?
    requires ':' in SplitUserinfo(Trim(raw)).0
    ensures var r := SplitUserinfo(Trim(raw)).1;
            '/' in r && (r[0] == ':' || ':' !in CutAtSlash(r).0)
    ensures Locate(Trim(raw)) == Ok(Located("", CutAtSlash(Trim(raw)).0, CutAtSlash(Trim(raw)).1))
  {
    var t := Trim(raw);
    var (u, r) := SplitUserinfo(t);
    AcceptedText(raw);
    PasswordIsNotScpLike(raw);
    UserinfoShape(t);
    var at := IndexAny(t, {'@'});
    assert u == t[..at + 1] && r == t[at + 1..];
    assert !ColonComesFirst(r);
    BareHasPath(t);
    SlashIsAfter(t, u, r);
    SlashComesFirst(r);
  }

  /** A value without scheme that is not scp-like names a path after a slash. */
  lemma BareHasPath(t: string)
    requires SplitScheme(t).None? && !IsScpLike(t) && Locate(t).Ok?
    ensures '/' in t && Locate(t) == Ok(Located("", CutAtSlash(t).0, CutAtSlash(t).1))
  {
  }

  lemma SlashIsAfter(t: string, u: string, r: string)
    requires '/' in t && '/' !in u && t == u + r
    ensures '/' in r
  {
    var k :| 0 <= k < |t| && t[k] == '/';
    assert forall i | 0 <= i < |u| :: u[i] in u && u[i] != '/' && t[i] == u[i];
    assert k >= |u| && r[k - |u|] == '/';
  }

  lemma SlashComesFirst(r: string)
    requires '/' in r && !ColonComesFirst(r)
    ensures r[0] == ':' || ':' !in CutAtSlash(r).0
  {
    var k, slash := IndexAny(r, {'/', ':'}), IndexAny(r, {'/'});
    assert 0 <= k <= slash;
    if k != 0 {
      assert r[k] == '/' && k == slash;
    }
  }

  lemma RemainderIsBare(raw: string)
    requires Canonicalise(raw).Ok? && SplitScheme(Trim(raw)).None? && !LosesHost(raw)
    requires ':' in SplitUserinfo(Trim(raw)).0
    ensures var t, r := Trim(raw), SplitUserinfo(Trim(raw)).1;
            && r != ""
            && Locate(t) == Ok(Located("", CutAtSlash(t).0, CutAtSlash(t).1))
            && Locate(r) == Ok(Located("", CutAtSlash(r).0, CutAtSlash(r).1))
  {
    RemainderShape(raw);
    RemainderHasNoScheme(SplitUserinfo(Trim(raw)).1);
  }

  lemma RemainderHasNoScheme(r: string)
    requires '/' in r && (r[0] == ':' || ':' !in CutAtSlash(r).0)
    ensures SplitScheme(r) == None
  {
    if r[0] != ':' {
      var (a, path) := CutAtSlash(r);
      assert r == a + ("/" + path);
      NoScheme(r, a, "/" + path);
    }
  }

  lemma LostRemainder(r: string)
    requires '/' in r && (r[0] == ':' || ':' !in CutAtSlash(r).0) && IsScpLike(r)
    ensures r[0] == ':'
    ensures Locate(r).Ok? && Reduce(Locate(r).value) == Err(MissingHost)
  {
    RemainderHasNoScheme(r);
    if r[0] != ':' {
      BareRemainderIsNotScpLike(r);
    }
    NothingBeforeColon(r);
  }

  lemma BareRemainderIsNotScpLike(r: string)
    requires '/' in r && ':' !in CutAtSlash(r).0
    ensures !IsScpLike(r)
  {
    var (a, path) := CutAtSlash(r);
    CutJoins(r);
    assert r == a + ("/" + path);
    NotUserinfoForm(r, a, "/" + path);
    NoColonNoHostForm(r, a, "/" + path);
  }

  lemma NothingBeforeColon(r: string)
    requires r != "" && r[0] == ':' && IsScpLike(r) && SplitScheme(r) == None
    ensures Locate(r).Ok? && Reduce(Locate(r).value) == Err(MissingHost)
  {
    IndexAnyIs(r, {':'}, 0);
    assert HostOf(r[..0]) == "";
  }

  /** Then the remainder is cut at its first ":", before which there is no host. */
  lemma HostIsLost(raw: string)
    requires Canonicalise(raw).Ok? && LosesHost(raw)
    ensures Canonicalise(Sanitise(raw)) == Err(MissingHost)
  {
    var t := Trim(raw);
    var r := SplitUserinfo(t).1;
    AcceptedText(raw);
    RemainderShape(raw);
    LostRemainder(r);
    UnitsConcat(SplitUserinfo(t).0, r);
    assert forall c | c in r :: c in t;
    assert Sanitise(raw) == "" + r == r;
    CleanText(r);
  }

  /** Two userinfos, each starting with ":", before a bare host, port and path. */
  function TwoUserinfos(u: string, v: string, host: string, port: string, name: string): string
  {
    (":" + u + "@") + (":" + v + "@" + (host + ":" + port)) + "/" + name
  }

  /** Such a value is accepted, and sanitising it loses the host. */
  lemma LosesHostExample(u: string, v: string, host: string, port: string, name: string)
    requires '@' !in u && '/' !in u && '@' !in v && '/' !in v
    requires LegalParts(host, port, [name]) && port != "" && !EndsWithGit(name)
    requires var raw := TwoUserinfos(u, v, host, port, name); Clean(raw) && Utf16Units(raw) <= MAX_CLONE_URL_LENGTH
    requires |Assemble(host, port, [name])| <= MAX_CANONICAL_LENGTH
    ensures var raw := TwoUserinfos(u, v, host, port, name);
            Canonicalise(raw) == Ok(Assemble(host, port, [name])) && LosesHost(raw)
  {
    var raw, front, second := TwoUserinfos(u, v, host, port, name), ":" + u, ":" + v;
    var tail := second + "@" + (host + ":" + port);
    HostHasNoMarks(host);
    DigitsCarryNoMark(port);
    SecondUserinfoIsScpLike(second, host, port, name);
    TwoUserinfosLoseHost(raw, front, tail, name);
    TwoUserinfosAreAccepted(raw, front, second, host, port, name);
  }

  lemma TwoUserinfosLoseHost(raw: string, front: string, tail: string, name: string)
    requires raw == front + "@" + tail + "/" + name && Clean(raw)
    requires front != "" && front[0] == ':' && '@' !in front && '/' !in front
    requires IsScpLike(tail + "/" + name)
    ensures LosesHost(raw)
  {
    TrimClean(raw);
    TwoUserinfosAreSplit(raw, front, tail, name);
    assert (front + "@")[0] == ':';
  }

  lemma TwoUserinfosAreAccepted(raw: string, front: string, second: string, host: string, port: string, name: string)
    requires raw == (front + "@") + (second + "@" + (host + ":" + port)) + "/" + name
    requires front != "" && front[0] == ':' && '@' !in front && '/' !in front
    requires second != "" && second[0] == ':' && '/' !in second && '/' !in host + ":" + port
    requires LegalParts(host, port, [name]) && port != "" && !EndsWithGit(name)
    requires Clean(raw) && Utf16Units(raw) <= MAX_CLONE_URL_LENGTH
    requires |Assemble(host, port, [name])| <= MAX_CANONICAL_LENGTH
    ensures Canonicalise(raw) == Ok(Assemble(host, port, [name]))
  {
    TwoUserinfosAreLocated(raw, front, second + "@" + (host + ":" + port), name);
    Regroup(front + "@", second, "@", host + ":" + port);
    LastHostCounts(front + "@" + second, host, port, name);
    CleanText(raw);
  }

  lemma Regroup(a: string, b: string, c: string, d: string)
    ensures a + (b + c + d) == a + b + c + d
  {
  }

  lemma LastHostCounts(userinfo: string, host: string, port: string, name: string)
    requires LegalParts(host, port, [name]) && port != "" && !EndsWithGit(name)
    requires |Assemble(host, port, [name])| <= MAX_CANONICAL_LENGTH
    ensures Reduce(Located("", userinfo + "@" + (host + ":" + port), name)) == Ok(Assemble(host, port, [name]))
  {
    HostIsReadWithPort(host, port);
    HostAfterAt(userinfo, host + ":" + port);
    ReduceOf("", userinfo + "@" + (host + ":" + port), host + ":" + port, host, port, name);
    OneNameComposes(host, port, name);
  }

  lemma HostIsReadWithPort(host: string, port: string)
    requires IsHost(host) && IsPort(port)
    ensures '@' !in host + ":" + port && HostAndPort("", host + ":" + port) == (host, port)
  {
    HostHasNoMarks(host);
    DigitsCarryNoMark(port);
    NotInJoin('@', host, port);
    HostIsSplit("", host, Some(port));
    JoinIsAppended(host, port);
  }

  lemma NotInJoin(c: char, a: string, b: string)
    requires c !in a && c !in b && c != ':'
    ensures c !in a + ":" + b
  {
  }

  lemma JoinIsAppended(a: string, b: string)
    ensures a + ":" + b == a + (":" + b)
  {
  }

  lemma HostAfterAt(userinfo: string, host: string)
    requires '@' !in host
    ensures HostOf(userinfo + "@" + host) == host
  {
    LastIndexBefore(userinfo, '@', host);
  }

  lemma OneNameComposes(host: string, port: string, name: string)
    requires LegalParts(host, port, [name]) && !EndsWithGit(name)
    requires |Assemble(host, port, [name])| <= MAX_CANONICAL_LENGTH
    ensures Compose(host, port, name) == Ok(Assemble(host, port, [name]))
  {
    assert IsSegment(name);
    SegmentIsPiece(name);
    SegmentsOfOne(name);
    NothingToTrim([name]);
    ComposeLegal(host, port, name, [name]);
  }

  lemma TwoUserinfosAreSplit(raw: string, front: string, tail: string, name: string)
    requires raw == front + "@" + tail + "/" + name
    requires front != "" && front[0] == ':' && '@' !in front && '/' !in front
    ensures SplitUserinfo(raw) == (front + "@", tail + "/" + name) && SplitScheme(raw) == None
  {
    var r := tail + "/" + name;
    assert raw == front + ("@" + r);
    IndexAnyAfter(front, {'@'}, "@" + r);
    assert raw[..|front|] == front && raw[..|front| + 1] == front + "@" && raw[|front| + 1..] == r;
    assert raw[0] == ':';
  }

  lemma TwoUserinfosAreLocated(raw: string, front: string, tail: string, name: string)
    requires raw == front + "@" + tail + "/" + name
    requires front != "" && front[0] == ':' && '@' !in front && '/' !in front
    requires tail != "" && tail[0] == ':' && '/' !in tail
    ensures Locate(raw) == Ok(Located("", front + "@" + tail, name))
  {
    var r := tail + "/" + name;
    TwoUserinfosAreSplit(raw, front, tail, name);
    IndexAnyIs(r, {'/', ':'}, 0);
    IndexAnyIs(raw, {'/', ':', '@'}, 0);
    assert !ColonComesFirst(SplitUserinfo(raw).1);
    assert !IsScpLike(raw);
    CutAtFirstSlash(front + "@" + tail, name);
    assert raw == (front + "@" + tail) + "/" + name;
  }

  lemma SecondUserinfoIsScpLike(front: string, host: string, port: string, name: string)
    requires '@' !in front && '/' !in front && host != "" && '/' !in host && ':' !in host
    ensures IsScpLike(front + "@" + (host + ":" + port) + "/" + name)
  {
    var rest := ":" + port + "/" + name;
    var r := front + "@" + (host + ":" + port) + "/" + name;
    assert r == front + ("@" + (host + rest));
    IndexAnyAfter(front, {'@'}, "@" + (host + rest));
    assert r[..|front|] == front && r[|front| + 1..] == host + rest;
    IndexAnyAfter(host, {'/', ':'}, rest);
    assert ColonComesFirst(host + rest);
  }

  /** Sanitising keeps which repository an accepted URL names, exactly when it does not lose the host. */
  lemma SanitisingKeepsIdentity(raw: string)
    requires Canonicalise(raw).Ok?
    ensures Canonicalise(Sanitise(raw)) == Canonicalise(raw) <==> !LosesHost(raw)
  {
    if LosesHost(raw) {
      HostIsLost(raw);
    } else if SplitScheme(Trim(raw)).Some? {
      SanitisedUrl(raw);
    } else {
      SanitisedText(raw);
    }
  }
}
