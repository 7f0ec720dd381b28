/** Which post-login redirect targets are accepted (server/utils/next_url.ts). */
module NextUrl {
  import opened Wrappers
  import opened Text

  const INVALID_NEXT_URL_PARAMETER_MESSAGE := "Invalid nextUrl parameter."

  const QUERY_OR_FRAGMENT: set<char> := {'?', '#'}

  predicate IsLetter(c: char) {
    'a' <= c <= 'z' || 'A' <= c <= 'Z'
  }

  predicate IsPathChar(c: char) {
    c == '/' || IsLetter(c) || IsDigit(c) || c == '-' || c == '_'
  }

  /** `/^\/[a-zA-Z_][\/a-zA-Z0-9-_]+$/` */
  predicate MatchesPathPattern(s: string) {
    && |s| >= 3
    && s[0] == '/'
    && (IsLetter(s[1]) || s[1] == '_')
    && forall i :: 2 <= i < |s| ==> IsPathChar(s[i])
  }

  /** `s.replace(pattern, '')`: drops the first occurrence only. */
  function RemoveFirst(s: string, pattern: string): string {
    if pattern <= s then s[|pattern|..]
    else if s == "" then ""
    else [s[0]] + RemoveFirst(s[1..], pattern)
  }

  function PathOf(url: string): string {
    Split(url, QUERY_OR_FRAGMENT)[0]
  }

  /** The error message, or None when the url is accepted. */
  function ValidateNextUrl(url: Option<string>, basePath: Option<string>): Option<string> {
    if Truthy(url) then
      var path := PathOf(url.value);
      var bp := OrEmpty(basePath);
      if !(bp <= path) then Some(INVALID_NEXT_URL_PARAMETER_MESSAGE)
      else
        var pathMinusBase := RemoveFirst(path, bp);
        if (pathMinusBase != "" && !("/" <= pathMinusBase))
           || (|pathMinusBase| >= 2 && !MatchesPathPattern(pathMinusBase))
        then Some(INVALID_NEXT_URL_PARAMETER_MESSAGE)
        else None
    else None
  }

  predicate Accepts(url: string, basePath: string) {
    ValidateNextUrl(Some(url), Some(basePath)) == None
  }

  /** The path is everything before the first `?` or `#`. */
  lemma PathIsPrefix(url: string)
    ensures var path := PathOf(url);
            && path <= url
            && Free(path, QUERY_OR_FRAGMENT)
            && (|path| < |url| ==> url[|path|] in QUERY_OR_FRAGMENT)
  {
    var k := FirstSeparator(url, QUERY_OR_FRAGMENT);
    assert url[..k] == PathOf(url);
  }

  lemma PathOfConcat(base: string, rest: string)
    requires Free(base, QUERY_OR_FRAGMENT)
    ensures PathOf(base + rest) == base + PathOf(rest)
  {
    var k := FirstSeparator(rest, QUERY_OR_FRAGMENT);
    assert (base + rest)[..|base| + k] == base + rest[..k];
    FirstSeparatorIs(base + rest, QUERY_OR_FRAGMENT, |base| + k);
  }

  /** `url` is `basePath`, `rest` and a query or fragment `tail`, and `rest` is empty, a lone
      slash, or a slash, a letter or underscore and at least one more path character. */
  ghost predicate Parses(url: string, basePath: string, rest: string, tail: string) {
    && url == basePath + rest + tail
    && Free(basePath + rest, QUERY_OR_FRAGMENT)
    && (tail == "" || tail[0] in QUERY_OR_FRAGMENT)
    && (rest == "" || rest == "/" || MatchesPathPattern(rest))
  }

  /** What the validator accepts parses. */
  lemma AcceptedParses(url: string, basePath: string)
    requires url != "" && Accepts(url, basePath)
    ensures exists rest, tail :: Parses(url, basePath, rest, tail)
  {
    hide MatchesPathPattern;
    hide Split;
    var path := PathOf(url);
    PathIsPrefix(url);
    assert path == basePath + path[|basePath|..];
    assert Parses(url, basePath, path[|basePath|..], url[|path|..]);
  }

  /** What parses is accepted. */
  lemma ParsedIsAccepted(url: string, basePath: string, rest: string, tail: string)
    requires url != "" && Parses(url, basePath, rest, tail)
    ensures Accepts(url, basePath)
  {
    PathOfConcat(basePath + rest, tail);
    PathIsPrefix(tail);
    assert PathOf(tail) == "";
    assert PathOf(url) == basePath + rest;
    assert PathOf(url)[|basePath|..] == rest;
  }

  /** The accepted language is the one `Parses` generates. */
  lemma AcceptsIff(url: string, basePath: string)
    requires url != ""
    ensures Accepts(url, basePath) <==> exists rest, tail :: Parses(url, basePath, rest, tail)
  {
    hide Accepts;
    hide Parses;
    if Accepts(url, basePath) {
      AcceptedParses(url, basePath);
    }
    forall rest, tail | Parses(url, basePath, rest, tail)
      ensures Accepts(url, basePath)
    {
      ParsedIsAccepted(url, basePath, rest, tail);
    }
  }

  /** Mounting the server under a base path shifts the accepted urls by exactly that path,
      unless the base path itself contains a `?` or `#`. */
  lemma BasePathShiftsIff(basePath: string)
    ensures (forall rest :: Accepts(basePath + rest, basePath) == Accepts(rest, "")) <==>
            Free(basePath, QUERY_OR_FRAGMENT)
  {
    if Free(basePath, QUERY_OR_FRAGMENT) {
      forall rest
        ensures Accepts(basePath + rest, basePath) == Accepts(rest, "")
      {
        PathOfConcat(basePath, rest);
        assert (basePath + PathOf(rest))[|basePath|..] == PathOf(rest);
      }
    } else {
      PathIsPrefix(basePath + "/");
      assert !Accepts(basePath + "/", basePath);
      assert PathOf("/") == "/" by { PathIsPrefix("/"); }
      assert Accepts("/", "");
    }
  }

  /** The base paths under which every accepted url stays on this server: none at all, or one
      slash followed by something that is neither a slash nor a backslash. */
  predicate LocalBase(basePath: string) {
    basePath == "" || (|basePath| >= 2 && basePath[0] == '/' && basePath[1] != '/' && basePath[1] != '\\')
  }

  /** A url without a scheme that is not a network-path reference (section 4.2 of RFC 3986),
      in either spelling. */
  predicate OnServer(url: string) {
    && url != "" && url[0] in {'/', '?', '#'}
    && !("//" <= url) && !("/\\" <= url)
  }

  /** Under such a base path an accepted url never leaves this server, and its path has a colon,
      a backslash or an at sign only where the base path does. */
  lemma AcceptedStaysOnServer(url: string, basePath: string)
    requires url != "" && Accepts(url, basePath) && LocalBase(basePath)
    ensures OnServer(url)
    ensures Free(PathOf(url), {':', '\\', '@'}) <==> Free(basePath, {':', '\\', '@'})
  {
    hide Split;
    PathIsPrefix(url);
    var path := PathOf(url);
    assert path == basePath + path[|basePath|..];
    assert forall i :: 0 <= i < |basePath| ==> path[i] == basePath[i];
    assert forall i :: |basePath| <= i < |path| ==> path[i] == path[|basePath|..][i - |basePath|];
  }

  /** Main result: accepted urls stay on the server under exactly these base paths, apart from
      those that contain a `?` or `#` and under which nothing is accepted. */
  lemma StaysOnServerIff(basePath: string)
    ensures (forall url :: url != "" && Accepts(url, basePath) ==> OnServer(url)) <==>
            LocalBase(basePath) || !Free(basePath, QUERY_OR_FRAGMENT)
  {
    hide Accepts;
    if !Free(basePath, QUERY_OR_FRAGMENT) {
      forall url | url != "" && Accepts(url, basePath)
        ensures false
      {
        BaseIsInPath(url, basePath);
      }
    } else if LocalBase(basePath) {
      forall url | url != "" && Accepts(url, basePath)
        ensures OnServer(url)
      {
        AcceptedStaysOnServer(url, basePath);
      }
    } else {
      BaseAccepted(basePath);
      assert !OnServer(basePath) || !OnServer(basePath + "/");
    }
  }

  lemma BaseIsInPath(url: string, basePath: string)
    requires url != "" && Accepts(url, basePath)
    ensures Free(basePath, QUERY_OR_FRAGMENT)
  {
    hide Split;
    PathIsPrefix(url);
    assert forall i :: 0 <= i < |basePath| ==> PathOf(url)[i] == basePath[i];
  }

  /** The base path itself is accepted, with or without a slash behind it. */
  lemma BaseAccepted(basePath: string)
    requires basePath != "" && Free(basePath, QUERY_OR_FRAGMENT)
    ensures Accepts(basePath, basePath) && Accepts(basePath + "/", basePath)
  {
    hide Accepts;
    assert basePath == basePath + "" + "" && basePath + "/" == basePath + "/" + "";
    assert basePath + "" == basePath;
    assert Free(basePath + "/", QUERY_OR_FRAGMENT);
    ParsedIsAccepted(basePath, basePath, "", "");
    ParsedIsAccepted(basePath + "/", basePath, "/", "");
  }

  /** Of the two-character urls that start with a slash only those whose second character ends
      the path are accepted. */
  lemma ShortPathsRefused(c: char)
    ensures Accepts(['/', c], "") <==> c in QUERY_OR_FRAGMENT
  {
    hide Split;
    var url := ['/', c];
    var path := PathOf(url);
    PathIsPrefix(url);
    if c in QUERY_OR_FRAGMENT {
      assert url[1] == c && !Free(url, QUERY_OR_FRAGMENT);
      assert path == "/";
    } else {
      assert path == url;
    }
    assert path[|""|..] == path;
  }
}
