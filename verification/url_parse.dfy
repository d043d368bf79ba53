/** The `path` component of Python's `urllib.parse.urlparse`, which the
    repository locator reads before splitting on `/`. */
module UrlParse {
  import Text

  /** C0 control characters and space, which `urlsplit` strips from the front. */
  predicate IsC0OrSpace(ch: char) {
    ch <= ' '
  }

  /** Tab, carriage return and line feed, which `urlsplit` deletes everywhere. */
  predicate IsUnsafe(ch: char) {
    ch == '\t' || ch == '\r' || ch == '\n'
  }

  predicate IsAsciiLetter(ch: char) {
    'a' <= ch <= 'z' || 'A' <= ch <= 'Z'
  }

  /** The characters allowed in a URL scheme name. */
  predicate IsSchemeChar(ch: char) {
    IsAsciiLetter(ch) || Text.IsDigit(ch) || ch == '+' || ch == '-' || ch == '.'
  }

  /** Schemes for which `urlparse` splits `;params` off the last path segment. */
  const UsesParams: set<string> :=
    {"", "ftp", "hdl", "prospero", "http", "imap", "https", "shttp",
     "rtsp", "rtsps", "rtspu", "sip", "sips", "mms", "sftp", "tel"}

  function LStripC0(s: string): (r: string)
    ensures |r| <= |s|
    ensures r == [] || !IsC0OrSpace(r[0])
    ensures (|s| == 0 || !IsC0OrSpace(s[0])) ==> r == s
  {
    if |s| > 0 && IsC0OrSpace(s[0]) then LStripC0(s[1..]) else s
  }

  function RemoveUnsafe(s: string): (r: string)
    ensures forall i :: 0 <= i < |r| ==> !IsUnsafe(r[i])
    ensures (forall i :: 0 <= i < |s| ==> !IsUnsafe(s[i])) ==> r == s
  {
    if |s| == 0 then ""
    else (if IsUnsafe(s[0]) then "" else [s[0]]) + RemoveUnsafe(s[1..])
  }

  function ToLowerAscii(s: string): (r: string)
    ensures |r| == |s|
  {
    if |s| == 0 then ""
    else [if 'A' <= s[0] <= 'Z' then (s[0] as int + 32) as char else s[0]] + ToLowerAscii(s[1..])
  }

  /** The lower-cased scheme recognised in front of the first `:`, and the
      rest of the URL; `("", url)` when there is no valid scheme. */
  function SplitScheme(url: string): (r: (string, string))
    ensures r.0 == "" ==> r.1 == url
  {
    var i := Text.IndexOf(url, ':');
    if 0 < i < |url| && IsAsciiLetter(url[0]) && forall k :: 0 <= k < i ==> IsSchemeChar(url[k])
    then (ToLowerAscii(url[..i]), url[i + 1..])
    else ("", url)
  }

  function Min(a: nat, b: nat): nat {
    if a <= b then a else b
  }

  /** The network location after a leading `//`, up to the first `/`, `?` or
      `#`, and what follows it. */
  function SplitNetloc(rest: string): (r: (string, string))
    ensures |r.1| <= |rest|
  {
    if |rest| >= 2 && rest[..2] == "//" then
      var tail := rest[2..];
      var d := Min(Text.IndexOf(tail, '/'), Min(Text.IndexOf(tail, '?'), Text.IndexOf(tail, '#')));
      (tail[..d], tail[d..])
    else ("", rest)
  }

  /** Drops `;params` from a path as `_splitparams` does: from the first `;`
      after the last `/`, or from the first `;` when there is no `/`. */
  function DropParams(path: string): (r: string)
    ensures r <= path
  {
    if '/' in path then
      var last := Text.LastIndexOf(path, '/');
      var j := Text.IndexOf(path[last..], ';');
      path[..last + j]
    else path[..Text.IndexOf(path, ';')]
  }

  /** The part of `s` before the first `c` (all of `s` when there is none),
      as `s.split(c, 1)[0]`. */
  function Before(s: string, c: char): (r: string)
    ensures r <= s && c !in r
    ensures c !in s ==> r == s
  {
    s[..Text.IndexOf(s, c)]
  }

  /** `urlparse(url).path`. */
  function PathOf(url: string): (path: string)
    ensures '#' !in path && '?' !in path
  {
    var clean := RemoveUnsafe(LStripC0(url));
    var (scheme, rest) := SplitScheme(clean);
    var (_, afterNetloc) := SplitNetloc(rest);
    var noFragment := Before(afterNetloc, '#');
    var noQuery := Before(noFragment, '?');
    if scheme in UsesParams && ';' in noQuery then DropParams(noQuery) else noQuery
  }

  /** The characters a plain URL part may hold without `urlparse` treating
      them as delimiters or whitespace. */
  predicate Plain(s: string) {
    forall i :: 0 <= i < |s| ==> !IsC0OrSpace(s[i]) && s[i] != '?' && s[i] != '#' && s[i] != ';'
  }

  lemma PlainConcat(a: string, b: string)
    requires Plain(a) && Plain(b)
    ensures Plain(a + b)
  {
    forall i | 0 <= i < |a + b|
      ensures !IsC0OrSpace((a + b)[i]) && (a + b)[i] != '?' && (a + b)[i] != '#' && (a + b)[i] != ';'
    {
      if i >= |a| {
        assert (a + b)[i] == b[i - |a|];
      }
    }
  }

  /** For `https://host/path` with no query, fragment, parameters or
      whitespace, the parsed path is exactly the text after the host. */
  lemma PathOfPlainUrl(url: string, host: string, path: string)
    requires Plain(host) && '/' !in host
    requires Plain(path) && (path == [] || path[0] == '/')
    requires url == "https://" + host + path
    ensures PathOf(url) == path
  {
    var rest := "//" + host + path;
    HttpsShape(url, host, path);
    CleanUrl(url, host, path);
    HttpsScheme(url, rest);
    PlainNetloc(host, path);
    PlainHasNoDelimiters(path);
    PathOfSteps(url, rest, host, path);
  }

  /** `PathOf` read step by step for an `https` URL that needs no cleaning. */
  lemma PathOfSteps(url: string, rest: string, netloc: string, path: string)
    requires RemoveUnsafe(LStripC0(url)) == url
    requires SplitScheme(url) == ("https", rest)
    requires SplitNetloc(rest) == (netloc, path)
    requires '#' !in path && '?' !in path && ';' !in path
    ensures PathOf(url) == path
  {
  }

  lemma HttpsShape(url: string, host: string, path: string)
    requires url == "https://" + host + path
    ensures url == "https:" + ("//" + host + path)
  {
  }

  lemma PlainHasNoDelimiters(s: string)
    requires Plain(s)
    ensures '#' !in s && '?' !in s && ';' !in s
  {
    forall i | 0 <= i < |s| ensures s[i] != '#' && s[i] != '?' && s[i] != ';' { }
  }

  lemma CleanUrl(url: string, host: string, path: string)
    requires Plain(host) && Plain(path)
    requires url == "https://" + host + path
    ensures RemoveUnsafe(LStripC0(url)) == url
  {
    forall i | 0 <= i < |url|
      ensures !IsUnsafe(url[i])
    {
      if 8 <= i < 8 + |host| {
        assert url[i] == host[i - 8];
      } else if i >= 8 + |host| {
        assert url[i] == path[i - 8 - |host|];
      }
    }
  }

  lemma HttpsScheme(url: string, rest: string)
    requires url == "https:" + rest
    ensures SplitScheme(url) == ("https", rest)
  {
    assert url[5] == ':';
    assert forall j :: 0 <= j < 5 ==> url[j] != ':';
    assert Text.IndexOf(url, ':') == 5;
    assert url[..5] == "https";
    assert forall k :: 0 <= k < 5 ==> IsSchemeChar(url[k]);
    assert ToLowerAscii("https") == "https";
    assert url[6..] == rest;
  }

  lemma PlainNetloc(host: string, path: string)
    requires Plain(host) && '/' !in host
    requires Plain(path) && (path == [] || path[0] == '/')
    ensures SplitNetloc("//" + host + path) == (host, path)
  {
    var rest := "//" + host + path;
    var tail := host + path;
    assert rest[..2] == "//";
    assert rest[2..] == tail;
    assert forall j :: 0 <= j < |host| ==> tail[j] == host[j];
    assert Text.IndexOf(tail, '/') == |host| by {
      if |path| > 0 {
        assert tail[|host|] == '/';
      }
    }
    forall j | 0 <= j < |tail|
      ensures tail[j] != '?' && tail[j] != '#'
    {
      if j < |host| {
        assert tail[j] == host[j];
      } else {
        assert tail[j] == path[j - |host|];
      }
    }
    assert Text.IndexOf(tail, '?') == |tail|;
    assert Text.IndexOf(tail, '#') == |tail|;
    assert tail[..|host|] == host && tail[|host|..] == path;
  }
}
