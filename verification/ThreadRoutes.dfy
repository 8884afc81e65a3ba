/** Thread routes: a path is built from a kind, a shell and a thread id, and parsed back.
    Characters are Unicode scalar values, so every string is well formed. */
module ThreadRoutes {
  import opened Wrappers
  import opened Text

  // ---------- percent coding (sections 2.1 and 2.3 of RFC 3986, over UTF-8) ----------

  type Byte = b: nat | b < 256

  function Utf8(c: char): (bytes: seq<Byte>)
    ensures 1 <= |bytes| <= 4
  {
    var u := c as int;
    if u < 0x80 then [u]
    else if u < 0x800 then [0xC0 + u / 64, 0x80 + u % 64]
    else if u < 0x1_0000 then [0xE0 + u / 4096, 0x80 + u / 64 % 64, 0x80 + u % 64]
    else [0xF0 + u / 262144, 0x80 + u / 4096 % 64, 0x80 + u / 64 % 64, 0x80 + u % 64]
  }

  predicate IsAlphanumeric(c: char) { 'A' <= c <= 'Z' || 'a' <= c <= 'z' || '0' <= c <= '9' }

  /** The marks that encodeURIComponent leaves alone but a route segment does not allow. */
  predicate IsAwkward(c: char) { c == '!' || c == '\'' || c == '(' || c == ')' || c == '*' }

  predicate IsUnescaped(c: char) { IsAlphanumeric(c) || c == '-' || c == '_' || c == '.' || c == '~' || IsAwkward(c) }

  function HexDigit(n: nat): char
    requires n < 16
  {
    if n < 10 then (n + 48) as char else (n + 55) as char
  }

  function HexValue(c: char): Option<nat> {
    if '0' <= c <= '9' then Some(c as int - 48)
    else if 'A' <= c <= 'F' then Some(c as int - 55)
    else if 'a' <= c <= 'f' then Some(c as int - 87)
    else None
  }

  function Escape(b: Byte): (s: string)
    ensures |s| == 3
  {
    ['%', HexDigit(b / 16), HexDigit(b % 16)]
  }

  function EscapeAll(bytes: seq<Byte>): (s: string)
    ensures |s| == 3 * |bytes|
  {
    if bytes == [] then "" else Escape(bytes[0]) + EscapeAll(bytes[1..])
  }

  function EncodeChar(c: char): string {
    if IsUnescaped(c) then [c] else EscapeAll(Utf8(c))
  }

  function EncodeURIComponent(s: string): string {
    if s == "" then "" else EncodeChar(s[0]) + EncodeURIComponent(s[1..])
  }

  /** The byte escaped at the front of a string. */
  function Unescape(s: string): (b: Option<nat>)
    ensures b.Some? ==> |s| >= 3 && b.value < 256
  {
    if |s| < 3 || s[0] != '%' then None
    else
      var high :- HexValue(s[1]);
      var low :- HexValue(s[2]);
      Some(high * 16 + low)
  }

  /** A continuation byte at the front of a string, as its six bits. */
  function Continuation(s: string): (v: Option<nat>)
    ensures v.Some? ==> |s| >= 3 && v.value < 64
  {
    var b :- Unescape(s);
    if 0x80 <= b < 0xC0 then Some(b - 0x80) else None
  }

  /** A scalar value from its code point, unless it is too short for its encoding, a surrogate
      or out of range. */
  function Scalar(v: nat, least: nat): Option<char> {
    if v < least || 0xD800 <= v < 0xE000 || v > 0x10_FFFF then None else Some(v as char)
  }

  /** The escaped character at the front of a string and how much of the string it takes. */
  function UnescapeChar(s: string): (r: Option<(char, nat)>)
    ensures r.Some? ==> 0 < r.value.1 <= |s|
  {
    var b :- Unescape(s);
    if b < 0x80 then Some((b as char, 3))
    else if 0xC0 <= b < 0xE0 then
      var b1 :- Continuation(s[3..]);
      var c :- Scalar((b - 0xC0) * 64 + b1, 0x80);
      Some((c, 6))
    else if 0xE0 <= b < 0xF0 then
      var b1 :- Continuation(s[3..]);
      var b2 :- Continuation(s[6..]);
      var c :- Scalar((b - 0xE0) * 4096 + b1 * 64 + b2, 0x800);
      Some((c, 9))
    else if 0xF0 <= b < 0xF8 then
      var b1 :- Continuation(s[3..]);
      var b2 :- Continuation(s[6..]);
      var b3 :- Continuation(s[9..]);
      var c :- Scalar((b - 0xF0) * 262144 + b1 * 4096 + b2 * 64 + b3, 0x1_0000);
      Some((c, 12))
    else None
  }

  function DecodeURIComponent(s: string): Option<string>
    decreases |s|
  {
    if s == "" then Some("")
    else if s[0] != '%' then
      var rest :- DecodeURIComponent(s[1..]);
      Some([s[0]] + rest)
    else
      var (c, used) :- UnescapeChar(s);
      var rest :- DecodeURIComponent(s[used..]);
      Some([c] + rest)
  }

  // ---------- routes ----------

  datatype Kind = Local | Remote

  datatype Shell = Default | Hotkey

  datatype Route = Route(kind: Kind, shell: Shell, threadId: string)

  /** Whitespace as String.prototype.trim removes it. */
  predicate IsJsSpace(c: char) { (IsWhiteSpace(c) && c != '\U{0085}') || c == '\U{FEFF}' }

  function TrimJs(s: string): string { TrimBy(s, IsJsSpace) }

  function Prefix(kind: Kind, shell: Shell): string {
    match (kind, shell)
    case (Local, Default) => "/local/"
    case (Remote, Default) => "/remote/"
    case (Local, Hotkey) => "/hotkey-window/thread/"
    case (Remote, Hotkey) => "/hotkey-window/remote/"
  }

  function BuildThreadRoutePath(route: Route): string {
    Prefix(route.kind, route.shell) + EncodeURIComponent(route.threadId)
  }

  function StripRouteSearchAndHash(path: string): string {
    if path == "" || path[0] == '?' || path[0] == '#' then "" else [path[0]] + StripRouteSearchAndHash(path[1..])
  }

  function DecodeRouteSegment(value: string): Option<string> {
    var trimmed := TrimJs(value);
    if trimmed == "" then None
    else match DecodeURIComponent(trimmed)
         case None => Some(trimmed)
         case Some(decoded) => if TrimJs(decoded) == "" then None else Some(TrimJs(decoded))
  }

  predicate IsSegmentChar(c: char) {
    IsAlphanumeric(c) || c == '.' || c == '_' || c == '~' || c == '%' || c == '-'
  }

  predicate IsSegment(s: string) { s != "" && forall i :: 0 <= i < |s| ==> IsSegmentChar(s[i]) }

  predicate Matches(path: string, kind: Kind, shell: Shell) {
    StartsWith(path, Prefix(kind, shell)) && IsSegment(path[|Prefix(kind, shell)|..])
  }

  function ParseAs(path: string, kind: Kind, shell: Shell): Option<Route>
    requires Matches(path, kind, shell)
  {
    var threadId :- DecodeRouteSegment(path[|Prefix(kind, shell)|..]);
    Some(Route(kind, shell, threadId))
  }

  function ParseThreadShellRoute(path: string): Option<Route> {
    var normalized := StripRouteSearchAndHash(path);
    if Matches(normalized, Local, Default) then ParseAs(normalized, Local, Default)
    else if Matches(normalized, Remote, Default) then ParseAs(normalized, Remote, Default)
    else if Matches(normalized, Local, Hotkey) then ParseAs(normalized, Local, Hotkey)
    else if Matches(normalized, Remote, Hotkey) then ParseAs(normalized, Remote, Hotkey)
    else None
  }

  // ---------- round trip ----------

  lemma UnescapeEscape(b: Byte, rest: string)
    ensures Unescape(Escape(b) + rest) == Some(b)
  {
    HexRoundTrip(b / 16);
    HexRoundTrip(b % 16);
  }

  lemma HexRoundTrip(n: nat)
    requires n < 16
    ensures HexValue(HexDigit(n)) == Some(n)
  {
  }

  lemma {:induction false} EscapedByte(bytes: seq<Byte>, rest: string, k: nat)
    requires k < |bytes|
    ensures 3 * k <= |EscapeAll(bytes) + rest|
    ensures Unescape((EscapeAll(bytes) + rest)[3 * k..]) == Some(bytes[k])
  {
    var s, tail := EscapeAll(bytes) + rest, EscapeAll(bytes[1..]) + rest;
    assert s == Escape(bytes[0]) + tail;
    if k == 0 {
      UnescapeEscape(bytes[0], tail);
    } else {
      EscapedByte(bytes[1..], rest, k - 1);
      assert s[3 * k..] == tail[3 * (k - 1)..];
    }
  }

  lemma UnescapeCharRoundTrip(c: char, rest: string)
    ensures UnescapeChar(EscapeAll(Utf8(c)) + rest) == Some((c, 3 * |Utf8(c)|))
  {
    hide EscapeAll, Escape, Unescape;
    var bytes := Utf8(c);
    EscapedByte(bytes, rest, 0);
    if |bytes| > 1 { EscapedByte(bytes, rest, 1); }
    if |bytes| > 2 { EscapedByte(bytes, rest, 2); }
    if |bytes| > 3 { EscapedByte(bytes, rest, 3); }
    var s := EscapeAll(bytes) + rest;
    assert s[0..] == s;
    Digits64(c as int);
  }

  lemma Digits64(u: nat)
    requires u < 0x11_0000
    ensures u == u / 64 * 64 + u % 64
    ensures u == u / 4096 * 4096 + u / 64 % 64 * 64 + u % 64
    ensures u == u / 262144 * 262144 + u / 4096 % 64 * 4096 + u / 64 % 64 * 64 + u % 64
  {
    assert u / 64 / 64 == u / 4096 && u / 4096 / 64 == u / 262144;
  }

  lemma EncodeCharRoundTrip(c: char, rest: string)
    ensures DecodeURIComponent(EncodeChar(c) + rest)
         == match DecodeURIComponent(rest) case None => None case Some(t) => Some([c] + t)
  {
    hide UnescapeChar, Utf8;
    if IsUnescaped(c) {
      assert ([c] + rest)[1..] == rest;
    } else {
      var s := EscapeAll(Utf8(c)) + rest;
      UnescapeCharRoundTrip(c, rest);
      assert s[0] == Escape(Utf8(c)[0])[0] == '%';
      assert s[3 * |Utf8(c)|..] == rest;
    }
  }

  lemma {:induction false} ComponentRoundTrip(s: string)
    ensures DecodeURIComponent(EncodeURIComponent(s)) == Some(s)
  {
    hide EncodeChar;
    if s != "" {
      ComponentRoundTrip(s[1..]);
      EncodeCharRoundTrip(s[0], EncodeURIComponent(s[1..]));
      assert s == [s[0]] + s[1..];
    }
  }

  /** A character of an encoded component: a mark left alone, or one a segment allows. */
  predicate IsEncoded(c: char) { IsSegmentChar(c) || IsAwkward(c) }

  lemma {:induction false} EscapeAllChars(bytes: seq<Byte>)
    ensures forall i :: 0 <= i < |EscapeAll(bytes)| ==> IsSegmentChar(EscapeAll(bytes)[i])
  {
    if bytes != [] {
      EscapeAllChars(bytes[1..]);
      assert forall i :: 0 <= i < 3 ==> IsSegmentChar(Escape(bytes[0])[i]);
    }
  }

  lemma EncodeCharChars(c: char)
    ensures EncodeChar(c) != ""
    ensures forall i :: 0 <= i < |EncodeChar(c)| ==> IsEncoded(EncodeChar(c)[i])
    ensures IsAwkward(c) ==> EncodeChar(c) == [c]
    ensures !IsAwkward(c) ==> IsSegment(EncodeChar(c))
  {
    EscapeAllChars(Utf8(c));
  }

  predicate HasAwkward(s: string) { exists c :: c in s && IsAwkward(c) }

  lemma {:induction false} ComponentChars(s: string)
    ensures var e := EncodeURIComponent(s);
            && (e == "" <==> s == "")
            && (forall i :: 0 <= i < |e| ==> IsEncoded(e[i]))
            && (IsSegment(e) <==> s != "" && !HasAwkward(s))
  {
    hide EncodeChar, IsSegmentChar, IsAwkward;
    if s != "" {
      var rest, head, tail := s[1..], EncodeChar(s[0]), EncodeURIComponent(s[1..]);
      var e := EncodeURIComponent(s);
      EncodeCharChars(s[0]);
      AwkwardIsNoSegment(s[0]);
      ComponentChars(rest);
      assert s == [s[0]] + rest && e == head + tail;
      assert HasAwkward(s) <==> IsAwkward(s[0]) || HasAwkward(rest);
      if IsSegment(e) {
        assert e[0] == head[0];
        assert forall i :: 0 <= i < |tail| ==> tail[i] == e[|head| + i];
      }
    }
  }

  lemma AwkwardIsNoSegment(c: char)
    ensures !(IsAwkward(c) && IsSegmentChar(c))
  {
  }

  lemma {:induction false} StripsNothing(path: string)
    requires forall i :: 0 <= i < |path| ==> path[i] != '?' && path[i] != '#'
    ensures StripRouteSearchAndHash(path) == path
  {
    if path != "" {
      StripsNothing(path[1..]);
    }
  }

  lemma BuiltPathPlain(route: Route)
    ensures var path := BuildThreadRoutePath(route);
            forall i :: 0 <= i < |path| ==> path[i] != '?' && path[i] != '#'
  {
    hide EncodeURIComponent, IsSegment, HasAwkward, Prefix;
    ComponentChars(route.threadId);
    PrefixPlain(route.kind, route.shell);
  }

  lemma PrefixPlain(kind: Kind, shell: Shell)
    ensures var prefix := Prefix(kind, shell);
            forall i :: 0 <= i < |prefix| ==> prefix[i] != '?' && prefix[i] != '#'
  {
  }

  /** A built path starts like no other kind of path. */
  lemma PrefixesDiffer(a: Route, b: Route)
    requires StartsWith(BuildThreadRoutePath(a), Prefix(b.kind, b.shell))
    ensures a.kind == b.kind && a.shell == b.shell
  {
    hide EncodeURIComponent, Prefix;
    var path, own := BuildThreadRoutePath(a), Prefix(a.kind, a.shell);
    assert path[..|own|] == own;
    TwoForms(path, a.kind, a.shell, b.kind, b.shell);
  }

  lemma UntrimmedStays(s: string)
    requires forall i :: 0 <= i < |s| ==> IsEncoded(s[i])
    ensures TrimJs(s) == s
  {
  }

  /** What becomes of every built route: one of the five marks makes it unreadable, a blank id
      makes it none, and otherwise the id loses the white space at its ends. */
  lemma ParsedAfterBuilding(route: Route)
    ensures ParseThreadShellRoute(BuildThreadRoutePath(route))
         == if HasAwkward(route.threadId) || TrimJs(route.threadId) == "" then None
            else Some(route.(threadId := TrimJs(route.threadId)))
  {
    var id, prefix := route.threadId, Prefix(route.kind, route.shell);
    var encoded, path := EncodeURIComponent(id), BuildThreadRoutePath(route);
    BuiltPathPlain(route);
    StripsNothing(path);
    ComponentChars(id);
    ComponentRoundTrip(id);
    UntrimmedStays(encoded);
    assert path[|prefix|..] == encoded && path[..|prefix|] == prefix;
    ParsesOwnForm(route);
  }

  /** Parsing a built route gives it back exactly for the ids that are not empty, carry no
      white space at their ends and contain none of ! ' ( ) *. */
  lemma RouteRoundTripExactly(route: Route)
    ensures ParseThreadShellRoute(BuildThreadRoutePath(route)) == Some(route)
            <==> (route.threadId != "" && TrimJs(route.threadId) == route.threadId && !HasAwkward(route.threadId))
  {
    hide BuildThreadRoutePath, ParseThreadShellRoute, HasAwkward, TrimJs;
    ParsedAfterBuilding(route);
    EmptyTrims();
  }

  lemma EmptyTrims()
    ensures TrimJs("") == ""
  {
  }

  lemma ParsesOwnForm(route: Route)
    requires StripRouteSearchAndHash(BuildThreadRoutePath(route)) == BuildThreadRoutePath(route)
    ensures ParseThreadShellRoute(BuildThreadRoutePath(route))
         == if Matches(BuildThreadRoutePath(route), route.kind, route.shell)
            then ParseAs(BuildThreadRoutePath(route), route.kind, route.shell) else None
  {
    hide BuildThreadRoutePath, ParseAs, IsSegment, Prefix;
    var path := BuildThreadRoutePath(route);
    forall kind: Kind, shell: Shell | Matches(path, kind, shell)
      ensures kind == route.kind && shell == route.shell
    {
      PrefixesDiffer(route, Route(kind, shell, ""));
    }
  }

  /** No two routes share a path, whatever their ids contain. */
  lemma BuildInjective(a: Route, b: Route)
    requires BuildThreadRoutePath(a) == BuildThreadRoutePath(b)
    ensures a == b
  {
    var path := BuildThreadRoutePath(a);
    assert path[..|Prefix(b.kind, b.shell)|] == Prefix(b.kind, b.shell);
    PrefixesDiffer(a, b);
    var start := |Prefix(a.kind, a.shell)|;
    assert path[start..] == EncodeURIComponent(a.threadId) && path[start..] == EncodeURIComponent(b.threadId);
    ComponentRoundTrip(a.threadId);
    ComponentRoundTrip(b.threadId);
  }

  // ---------- paths that were not built ----------

  lemma {:induction false} StripsAtMark(path: string, mark: char, rest: string)
    requires mark == '?' || mark == '#'
    ensures StripRouteSearchAndHash(path + [mark] + rest) == StripRouteSearchAndHash(path)
  {
    if path == "" {
      assert (path + [mark] + rest)[0] == mark;
    } else {
      assert (path + [mark] + rest)[1..] == path[1..] + [mark] + rest;
      StripsAtMark(path[1..], mark, rest);
    }
  }

  /** A search or a hash after any path makes no difference, whatever it contains. */
  lemma SearchAndHashIgnored(path: string, mark: char, rest: string)
    requires mark == '?' || mark == '#'
    ensures ParseThreadShellRoute(path + [mark] + rest) == ParseThreadShellRoute(path)
  {
    hide Matches, ParseAs;
    StripsAtMark(path, mark, rest);
  }

  /** A parsed id is never blank or padded. */
  lemma ParsedIdTidy(path: string)
    ensures var route := ParseThreadShellRoute(path);
            route.Some? ==> route.value.threadId != "" && TrimJs(route.value.threadId) == route.value.threadId
  {
    hide IsSegment, DecodeURIComponent, DecodeRouteSegment, Prefix, TrimJs;
    var path := StripRouteSearchAndHash(path);
    forall kind: Kind, shell: Shell | Matches(path, kind, shell)
      ensures var route := ParseAs(path, kind, shell);
              route.Some? ==> route.value.threadId != "" && TrimJs(route.value.threadId) == route.value.threadId
    {
      SegmentTidy(path[|Prefix(kind, shell)|..]);
    }
  }

  lemma SegmentTidy(segment: string)
    ensures var id := DecodeRouteSegment(segment); id.Some? ==> id.value != "" && TrimJs(id.value) == id.value
  {
    hide DecodeURIComponent, IsJsSpace;
    TrimTwice(segment, IsJsSpace);
    if DecodeURIComponent(TrimJs(segment)).Some? {
      TrimTwice(DecodeURIComponent(TrimJs(segment)).value, IsJsSpace);
    }
  }

  /** The four forms, with a segment of the characters that a segment may have. */
  function FormOf(kind: Kind, shell: Shell, segment: string): string {
    if shell.Default? then (if kind.Local? then "/local/" else "/remote/") + segment
    else "/hotkey-window/" + (if kind.Local? then "thread/" else "remote/") + segment
  }

  /** A path is a route exactly in one of the four forms, and its id is its decoded segment. */
  lemma FormsExactly(path: string)
    requires forall i :: 0 <= i < |path| ==> path[i] != '?' && path[i] != '#'
    ensures forall kind: Kind, shell: Shell, segment: string ::
              path == FormOf(kind, shell, segment) && IsSegment(segment) ==>
                ParseThreadShellRoute(path)
                == (var id := DecodeRouteSegment(segment);
                    if id.Some? then Some(Route(kind, shell, id.value)) else None)
    ensures (forall kind: Kind, shell: Shell, segment: string ::
               path == FormOf(kind, shell, segment) ==> !IsSegment(segment))
            ==> ParseThreadShellRoute(path) == None
  {
    hide DecodeRouteSegment, IsSegment, Prefix;
    StripsNothing(path);
    forall kind: Kind, shell: Shell, segment: string | path == FormOf(kind, shell, segment) && IsSegment(segment)
      ensures Matches(path, kind, shell) && path[|Prefix(kind, shell)|..] == segment
      ensures forall k: Kind, h: Shell :: Matches(path, k, h) ==> k == kind && h == shell
    {
      FormIsPrefix(kind, shell, segment);
      OneForm(path, kind, shell);
    }
    forall kind: Kind, shell: Shell | Matches(path, kind, shell)
      ensures path == FormOf(kind, shell, path[|Prefix(kind, shell)|..])
    {
      FormIsPrefix(kind, shell, path[|Prefix(kind, shell)|..]);
    }
  }

  lemma FormIsPrefix(kind: Kind, shell: Shell, segment: string)
    ensures FormOf(kind, shell, segment) == Prefix(kind, shell) + segment
  {
    assert "/hotkey-window/" + "thread/" + segment == "/hotkey-window/thread/" + segment;
    assert "/hotkey-window/" + "remote/" + segment == "/hotkey-window/remote/" + segment;
  }

  lemma OneForm(path: string, kind: Kind, shell: Shell)
    requires StartsWith(path, Prefix(kind, shell))
    ensures forall k: Kind, h: Shell :: StartsWith(path, Prefix(k, h)) ==> k == kind && h == shell
  {
    forall k: Kind, h: Shell | StartsWith(path, Prefix(k, h)) ensures k == kind && h == shell {
      TwoForms(path, kind, shell, k, h);
    }
  }

  lemma TwoForms(path: string, kind: Kind, shell: Shell, k: Kind, h: Shell)
    requires StartsWith(path, Prefix(kind, shell)) && StartsWith(path, Prefix(k, h))
    ensures k == kind && h == shell
  {
    var own, other := Prefix(kind, shell), Prefix(k, h);
    assert path[..|own|][1] == path[1] == path[..|other|][1];
    if shell.Hotkey? && h.Hotkey? {
      assert path[..|own|][15] == path[15] == path[..|other|][15];
    }
  }

  // ---------- what decoding accepts ----------

  /** The characters that encodeURIComponent leaves alone. */
  lemma UnescapedExactly(c: char)
    ensures EncodeChar(c) == [c]
            <==> 'A' <= c <= 'Z' || 'a' <= c <= 'z' || '0' <= c <= '9' || c in "-_.!~*'()"
  {
    hide EscapeAll;
    assert |EscapeAll(Utf8(c))| >= 3;
  }

  lemma SegmentsExactly(s: string)
    ensures IsSegment(s)
            <==> s != "" && forall i :: 0 <= i < |s| ==>
                   'A' <= s[i] <= 'Z' || 'a' <= s[i] <= 'z' || '0' <= s[i] <= '9' || s[i] in "._~%-"
  {
  }

  /** Where trimming in the browser and in the rest of the application differ. */
  lemma TrimmingDiffers(c: char)
    ensures IsJsSpace(c) != IsWhiteSpace(c) <==> c == '\U{0085}' || c == '\U{FEFF}'
  {
  }

  lemma HexExactly(c: char, n: nat)
    requires n < 16
    ensures HexValue(c) == Some(n) <==> c == "0123456789ABCDEF"[n] || c == "0123456789abcdef"[n]
    ensures HexDigit(n) == "0123456789ABCDEF"[n]
  {
  }

  /** Only well-formed UTF-8 is decoded: the escaped bytes are those of the character itself,
      which rules out surrogates and encodings that are too long. */
  lemma OnlyWellFormed(s: string)
    requires UnescapeChar(s).Some?
    ensures var (c, used) := UnescapeChar(s).value;
            && used == 3 * |Utf8(c)|
            && forall k :: 0 <= k < |Utf8(c)| ==> Unescape(s[3 * k..]) == Some(Utf8(c)[k])
  {
    hide Unescape, Continuation, Utf8;
    assert s[0..] == s;
    var b := Unescape(s).value;
    if b >= 0x80 {
      ContinuationIs(s[3..]);
    }
    if b >= 0xE0 {
      ContinuationIs(s[6..]);
    }
    if b >= 0xF0 {
      ContinuationIs(s[9..]);
    }
    var c := UnescapeChar(s).value.0;
    if b < 0x80 {
      Utf8One(c);
    } else if b < 0xE0 {
      Utf8Two(c, b - 0xC0, Continuation(s[3..]).value);
    } else if b < 0xF0 {
      Utf8Three(c, b - 0xE0, Continuation(s[3..]).value, Continuation(s[6..]).value);
    } else {
      Utf8Four(c, b - 0xF0, Continuation(s[3..]).value, Continuation(s[6..]).value, Continuation(s[9..]).value);
    }
  }

  lemma ContinuationIs(s: string)
    ensures Continuation(s).Some? ==> Unescape(s) == Some(0x80 + Continuation(s).value)
  {
  }

  lemma Utf8One(c: char)
    requires c as int < 0x80
    ensures Utf8(c) == [c as int]
  {
  }

  lemma Utf8Two(c: char, d1: nat, d0: nat)
    requires d1 < 32 && d0 < 64 && c as int == d1 * 64 + d0 && c as int >= 0x80
    ensures Utf8(c) == [0xC0 + d1, 0x80 + d0]
  {
  }

  lemma Utf8Three(c: char, d2: nat, d1: nat, d0: nat)
    requires d2 < 16 && d1 < 64 && d0 < 64 && c as int == d2 * 4096 + d1 * 64 + d0 && c as int >= 0x800
    ensures Utf8(c) == [0xE0 + d2, 0x80 + d1, 0x80 + d0]
  {
    assert c as int / 64 == d2 * 64 + d1;
  }

  lemma Utf8Four(c: char, d3: nat, d2: nat, d1: nat, d0: nat)
    requires d3 < 8 && d2 < 64 && d1 < 64 && d0 < 64 && c as int >= 0x1_0000
    requires c as int == d3 * 262144 + d2 * 4096 + d1 * 64 + d0
    ensures Utf8(c) == [0xF0 + d3, 0x80 + d2, 0x80 + d1, 0x80 + d0]
  {
    assert c as int / 64 == d3 * 4096 + d2 * 64 + d1;
    assert c as int / 4096 == d3 * 64 + d2;
  }

  /** What cannot be decoded is kept as it stands, such as anything that ends in a percent sign. */
  lemma MalformedKept(kind: Kind, shell: Shell, segment: string)
    requires forall i :: 0 <= i < |segment| ==> IsSegmentChar(segment[i])
    ensures ParseThreadShellRoute(FormOf(kind, shell, segment + "%")) == Some(Route(kind, shell, segment + "%"))
  {
    hide ParseThreadShellRoute, FormOf, DecodeURIComponent;
    var whole := segment + "%";
    assert IsSegment(whole);
    PercentUndecodable(segment);
    UntrimmedStays(whole);
    FormIsPrefix(kind, shell, whole);
    PrefixPlain(kind, shell);
    FormsExactly(FormOf(kind, shell, whole));
  }

  /** Only escapes are decoded. */
  lemma {:induction false} PlainDecodes(s: string)
    requires '%' !in s
    ensures DecodeURIComponent(s) == Some(s)
  {
    if s != "" {
      assert s[0] in s;
      PlainDecodes(s[1..]);
      assert s == [s[0]] + s[1..];
    }
  }

  lemma {:induction false} PercentUndecodable(s: string)
    ensures DecodeURIComponent(s + "%") == None
    decreases |s|
  {
    hide UnescapeChar;
    var whole := s + "%";
    if s != "" && s[0] != '%' {
      assert whole[1..] == s[1..] + "%";
      PercentUndecodable(s[1..]);
    } else if UnescapeChar(whole).Some? {
      var used := UnescapeChar(whole).value.1;
      EndsInHex(whole);
      assert whole[|s|] == '%';
      assert whole[used..] == s[used..] + "%";
      PercentUndecodable(s[used..]);
    }
  }

  lemma EndsInHex(s: string)
    requires UnescapeChar(s).Some?
    ensures var used := UnescapeChar(s).value.1; used <= |s| && HexValue(s[used - 1]).Some?
  {
    var (c, used) := UnescapeChar(s).value;
    OnlyWellFormed(s);
    var k := |Utf8(c)| - 1;
    assert s[3 * k..][2] == s[3 * k + 2];
  }
}
