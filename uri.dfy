/**
  URI references as RFC 3986 treats them: splitting a reference into its five
  components (the regular expression of Appendix B), putting them back together
  (section 5.3), and resolving a reference against a base URI (section 5.2: the
  transform of 5.2.2, the merge of 5.2.3 and remove_dot_segments of 5.2.4).
 */
module Uri {
  import opened Wrappers

  /** The five components of a URI reference; an absent component is None. */
  datatype UriRef = UriRef(
    scheme: Option<string>,
    authority: Option<string>,
    path: string,
    query: Option<string>,
    fragment: Option<string>)

  /** The characters that end each component in Appendix B. */
  const SchemeEnd: set<char> := {':', '/', '?', '#'}
  const AuthorityEnd: set<char> := {'/', '?', '#'}
  const PathEnd: set<char> := {'?', '#'}
  const QueryEnd: set<char> := {'#'}

  predicate NoneIn(s: string, cs: set<char>)
  {
    forall k :: 0 <= k < |s| ==> s[k] !in cs
  }

  predicate StartsWith(s: string, prefix: string)
  {
    |prefix| <= |s| && forall k :: 0 <= k < |prefix| ==> s[k] == prefix[k]
  }

  /** Index of the first character of `s` that belongs to `cs`, or |s| when there is none. */
  function FindAny(s: string, cs: set<char>): (i: nat)
    ensures i <= |s|
    ensures forall k :: 0 <= k < i ==> s[k] !in cs
    ensures i < |s| ==> s[i] in cs
  {
    if s == [] then 0
    else if s[0] in cs then 0
    else 1 + FindAny(s[1..], cs)
  }

  /** The first-match contract of FindAny determines its result. */
  lemma FindAnyIs(s: string, cs: set<char>, i: nat)
    requires i <= |s|
    requires forall k :: 0 <= k < i ==> s[k] !in cs
    requires i < |s| ==> s[i] in cs
    ensures FindAny(s, cs) == i
  {
  }

  /** Appending text that starts with a stop character does not move the first stop. */
  lemma FindAnyBefore(a: string, t: string, cs: set<char>)
    requires t != [] && t[0] in cs
    ensures FindAny(a + t, cs) == FindAny(a, cs)
  {
    var i := FindAny(a, cs);
    assert i < |a| ==> (a + t)[i] == a[i];
    assert i == |a| ==> (a + t)[i] == t[0];
    FindAnyIs(a + t, cs, i);
  }

  /** A stop character inside `a` is found whatever follows `a`. */
  lemma FindAnyWithin(a: string, t: string, cs: set<char>)
    requires FindAny(a, cs) < |a|
    ensures FindAny(a + t, cs) == FindAny(a, cs)
  {
    var i := FindAny(a, cs);
    assert (a + t)[i] == a[i];
    FindAnyIs(a + t, cs, i);
  }

  /** Text without stop characters is skipped over. */
  lemma FindAnySkips(a: string, t: string, cs: set<char>)
    requires NoneIn(a, cs)
    ensures FindAny(a + t, cs) == |a| + FindAny(t, cs)
  {
    var j := FindAny(t, cs);
    assert forall k :: |a| <= k < |a| + j ==> (a + t)[k] == t[k - |a|];
    assert |a| + j < |a + t| ==> (a + t)[|a| + j] == t[j];
    FindAnyIs(a + t, cs, |a| + j);
  }

  /** A stop character right after a run without any is where the search stops. */
  lemma FindAnyAt(a: string, t: string, cs: set<char>)
    requires NoneIn(a, cs)
    requires t == [] || t[0] in cs
    ensures FindAny(a + t, cs) == |a|
  {
    FindAnySkips(a, t, cs);
  }

  /** True when `s` begins with a non-empty run of characters other than ":/?#" followed by ':'. */
  predicate HasSchemePrefix(s: string)
  {
    var i := FindAny(s, SchemeEnd);
    0 < i < |s| && s[i] == ':'
  }

  function SplitScheme(s: string): (Option<string>, string)
  {
    if HasSchemePrefix(s) then
      var i := FindAny(s, SchemeEnd);
      (Some(s[..i]), s[i + 1..])
    else (None, s)
  }

  function SplitAuthority(s: string): (Option<string>, string)
  {
    if StartsWith(s, "//") then
      var j := FindAny(s[2..], AuthorityEnd);
      (Some(s[2..2 + j]), s[2 + j..])
    else (None, s)
  }

  function SplitPath(s: string): (string, string)
  {
    var p := FindAny(s, PathEnd);
    (s[..p], s[p..])
  }

  function SplitQuery(s: string): (Option<string>, string)
  {
    if s != [] && s[0] == '?' then
      var q := FindAny(s[1..], QueryEnd);
      (Some(s[1..1 + q]), s[1 + q..])
    else (None, s)
  }

  /** Splits a reference into its components, as the regular expression of Appendix B does. */
  function ParseRef(s: string): UriRef
  {
    var afterScheme := SplitScheme(s).1;
    var afterAuthority := SplitAuthority(afterScheme).1;
    var afterPath := SplitPath(afterAuthority).1;
    var afterQuery := SplitQuery(afterPath).1;
    UriRef(
      SplitScheme(s).0,
      SplitAuthority(afterScheme).0,
      SplitPath(afterAuthority).0,
      SplitQuery(afterPath).0,
      if afterQuery != [] then Some(afterQuery[1..]) else None)
  }

  function SchemeText(scheme: Option<string>): string
  {
    if scheme.Some? then scheme.value + ":" else ""
  }

  function AuthorityText(authority: Option<string>): string
  {
    if authority.Some? then "//" + authority.value else ""
  }

  function QueryText(query: Option<string>): string
  {
    if query.Some? then "?" + query.value else ""
  }

  function FragmentText(fragment: Option<string>): string
  {
    if fragment.Some? then "#" + fragment.value else ""
  }

  /** Component recomposition, section 5.3 of RFC 3986. */
  function Recompose(u: UriRef): string
  {
    SchemeText(u.scheme) + (AuthorityText(u.authority) + (u.path + (QueryText(u.query) + FragmentText(u.fragment))))
  }

  /**
    The component tuples that recompose to a string which splits back into
    them: each component free of the characters that would end it early, a
    path after an authority that is empty or absolute, no "//" path without an
    authority, and no ':' in the first segment of a path that stands alone.
   */
  predicate WellFormed(u: UriRef)
  {
    && (u.scheme.Some? ==> u.scheme.value != [] && NoneIn(u.scheme.value, SchemeEnd))
    && (u.authority.Some? ==> NoneIn(u.authority.value, AuthorityEnd))
    && NoneIn(u.path, PathEnd)
    && (u.authority.Some? ==> u.path == [] || u.path[0] == '/')
    && (u.authority.None? ==> !StartsWith(u.path, "//"))
    && (u.scheme.None? && u.authority.None? ==> !HasSchemePrefix(u.path))
    && (u.query.Some? ==> NoneIn(u.query.value, QueryEnd))
  }

  lemma SchemeSplits(s: string)
    ensures var (scheme, rest) := SplitScheme(s);
      && s == SchemeText(scheme) + rest
      && (scheme.Some? ==> scheme.value != [] && NoneIn(scheme.value, SchemeEnd))
      && (scheme.None? ==> rest == s && !HasSchemePrefix(s))
  {
    if HasSchemePrefix(s) {
      var i := FindAny(s, SchemeEnd);
      assert s == s[..i] + [':'] + s[i + 1..];
    }
  }

  lemma AuthoritySplits(s: string)
    ensures var (authority, rest) := SplitAuthority(s);
      && s == AuthorityText(authority) + rest
      && (authority.Some? ==> NoneIn(authority.value, AuthorityEnd) && (rest == [] || rest[0] in AuthorityEnd))
      && (authority.None? ==> rest == s && !StartsWith(s, "//"))
  {
    if StartsWith(s, "//") {
      var j := FindAny(s[2..], AuthorityEnd);
      assert s == "//" + s[2..2 + j] + s[2 + j..];
      assert s[2 + j..] != [] ==> s[2 + j..][0] == s[2..][j];
    }
  }

  lemma PathSplits(s: string)
    ensures var (path, rest) := SplitPath(s);
      && s == path + rest
      && NoneIn(path, PathEnd)
      && (rest == [] || rest[0] in PathEnd)
  {
    var p := FindAny(s, PathEnd);
    assert s == s[..p] + s[p..];
  }

  lemma QuerySplits(s: string)
    requires s == [] || s[0] in PathEnd
    ensures var (query, rest) := SplitQuery(s);
      && s == QueryText(query) + rest
      && (query.Some? ==> NoneIn(query.value, QueryEnd))
      && (rest == [] || rest[0] == '#')
  {
    if s != [] && s[0] == '?' {
      var t := s[1..];
      var q := FindAny(t, QueryEnd);
      assert s[1..1 + q] == t[..q] && s[1 + q..] == t[q..];
      assert s == "?" + t[..q] + t[q..];
      assert NoneIn(t[..q], QueryEnd);
      assert t[q..] != [] ==> t[q..][0] == t[q] == '#';
    }
  }

  /** What follows the path recomposes from the query and fragment split off it. */
  lemma RecomposeTail(afterPath: string)
    requires afterPath == [] || afterPath[0] in PathEnd
    ensures var (query, afterQuery) := SplitQuery(afterPath);
      QueryText(query) + FragmentText(if afterQuery != [] then Some(afterQuery[1..]) else None) == afterPath
  {
    QuerySplits(afterPath);
    var afterQuery := SplitQuery(afterPath).1;
    if afterQuery != [] {
      assert afterQuery == "#" + afterQuery[1..];
    }
  }

  /** Every string splits into components that recompose to the same string. */
  lemma RecomposeParse(s: string)
    ensures Recompose(ParseRef(s)) == s
  {
    var (scheme, afterScheme) := SplitScheme(s);
    var (authority, afterAuthority) := SplitAuthority(afterScheme);
    var (path, afterPath) := SplitPath(afterAuthority);
    var (query, afterQuery) := SplitQuery(afterPath);
    var fragment := if afterQuery != [] then Some(afterQuery[1..]) else None;
    assert ParseRef(s) == UriRef(scheme, authority, path, query, fragment);
    var tail := QueryText(query) + FragmentText(fragment);
    SchemeSplits(s);
    AuthoritySplits(afterScheme);
    PathSplits(afterAuthority);
    RecomposeTail(afterPath);
    calc {
      s;
      SchemeText(scheme) + afterScheme;
      SchemeText(scheme) + (AuthorityText(authority) + afterAuthority);
      SchemeText(scheme) + (AuthorityText(authority) + (path + afterPath));
      SchemeText(scheme) + (AuthorityText(authority) + (path + tail));
    }
  }

  /** Every string splits into well-formed components. */
  lemma ParseWellFormed(s: string)
    ensures WellFormed(ParseRef(s))
  {
    var u := ParseRef(s);
    var afterScheme := SplitScheme(s).1;
    var afterAuthority := SplitAuthority(afterScheme).1;
    var afterPath := SplitPath(afterAuthority).1;
    var afterQuery := SplitQuery(afterPath).1;
    SchemeSplits(s);
    AuthoritySplits(afterScheme);
    PathSplits(afterAuthority);
    QuerySplits(afterPath);
    if u.authority.Some? && u.path != [] {
      assert u.path[0] == afterAuthority[0];
    }
    StartsWithExtend(u.path, afterPath, "//");
    if u.scheme.None? && u.authority.None? && FindAny(u.path, SchemeEnd) < |u.path| {
      FindAnyWithin(u.path, afterPath, SchemeEnd);
      assert s == u.path + afterPath;
      assert s[FindAny(u.path, SchemeEnd)] == u.path[FindAny(u.path, SchemeEnd)];
    }
  }

  lemma SplitSchemeOf(scheme: Option<string>, rest: string)
    requires scheme.Some? ==> scheme.value != [] && NoneIn(scheme.value, SchemeEnd)
    requires scheme.None? ==> !HasSchemePrefix(rest)
    ensures SplitScheme(SchemeText(scheme) + rest) == (scheme, rest)
  {
    if scheme.Some? {
      var v := scheme.value;
      var s := v + (":" + rest);
      assert SchemeText(scheme) + rest == s;
      FindAnyAt(v, ":" + rest, SchemeEnd);
      assert s[|v|] == ':';
      assert s[..|v|] == v && s[|v| + 1..] == rest;
    } else {
      assert SchemeText(scheme) + rest == rest;
    }
  }

  lemma SplitAuthorityOf(authority: Option<string>, rest: string)
    requires authority.Some? ==> NoneIn(authority.value, AuthorityEnd) && (rest == [] || rest[0] in AuthorityEnd)
    requires authority.None? ==> !StartsWith(rest, "//")
    ensures SplitAuthority(AuthorityText(authority) + rest) == (authority, rest)
  {
    if authority.Some? {
      var a := authority.value;
      var s := "//" + (a + rest);
      assert AuthorityText(authority) + rest == s;
      assert s[..2] == "//" && s[2..] == a + rest;
      FindAnyAt(a, rest, AuthorityEnd);
      assert s[2..2 + |a|] == a && s[2 + |a|..] == rest;
    } else {
      assert AuthorityText(authority) + rest == rest;
    }
  }

  lemma SplitPathOf(path: string, rest: string)
    requires NoneIn(path, PathEnd)
    requires rest == [] || rest[0] in PathEnd
    ensures SplitPath(path + rest) == (path, rest)
  {
    FindAnyAt(path, rest, PathEnd);
    assert (path + rest)[..|path|] == path && (path + rest)[|path|..] == rest;
  }

  lemma SplitQueryOf(query: Option<string>, rest: string)
    requires query.Some? ==> NoneIn(query.value, QueryEnd)
    requires rest == [] || rest[0] == '#'
    ensures SplitQuery(QueryText(query) + rest) == (query, rest)
  {
    if query.Some? {
      var q := query.value;
      var s := "?" + (q + rest);
      assert QueryText(query) + rest == s;
      assert s[1..] == q + rest;
      FindAnyAt(q, rest, QueryEnd);
      assert s[1..1 + |q|] == q && s[1 + |q|..] == rest;
    } else {
      assert QueryText(query) + rest == rest;
    }
  }

  lemma StartsWithExtend(s: string, t: string, p: string)
    ensures StartsWith(s, p) ==> StartsWith(s + t, p)
  {
    if StartsWith(s, p) {
      assert (s + t)[..|p|] == s[..|p|];
    }
  }

  /** A path that does not begin with "//" still does not once a query or fragment follows. */
  lemma NoDoubleSlash(path: string, rest: string)
    requires !StartsWith(path, "//")
    requires rest == [] || rest[0] in PathEnd
    ensures !StartsWith(path + rest, "//")
  {
    if |path| >= 2 {
      assert (path + rest)[..2] == path[..2];
    } else if |path| == 1 && rest != [] {
      assert (path + rest)[1] == rest[0];
    } else if path == [] && rest != [] {
      assert (path + rest)[0] == rest[0];
    }
  }

  /** A path with no ':' in its first segment keeps that property when a query or fragment follows. */
  lemma NoSchemePrefixExtends(path: string, rest: string)
    requires !HasSchemePrefix(path)
    requires rest == [] || rest[0] in PathEnd
    ensures !HasSchemePrefix(path + rest)
  {
    if FindAny(path, SchemeEnd) < |path| {
      FindAnyWithin(path, rest, SchemeEnd);
      assert (path + rest)[FindAny(path, SchemeEnd)] == path[FindAny(path, SchemeEnd)];
    } else if rest != [] {
      FindAnyBefore(path, rest, SchemeEnd);
      assert (path + rest)[|path|] == rest[0];
    } else {
      assert path + rest == path;
    }
  }

  /** Well-formed components survive recomposition and splitting unchanged. */
  lemma ParseRecompose(u: UriRef)
    requires WellFormed(u)
    ensures ParseRef(Recompose(u)) == u
  {
    var fragmentText := FragmentText(u.fragment);
    var afterPath := QueryText(u.query) + fragmentText;
    var afterAuthority := u.path + afterPath;
    var afterScheme := AuthorityText(u.authority) + afterAuthority;
    assert Recompose(u) == SchemeText(u.scheme) + afterScheme;
    assert afterPath == [] || afterPath[0] in PathEnd;

    if u.scheme.None? {
      if u.authority.Some? {
        FindAnyIs(afterScheme, SchemeEnd, 0);
      } else {
        NoSchemePrefixExtends(u.path, afterPath);
        assert afterScheme == afterAuthority;
      }
    }
    SplitSchemeOf(u.scheme, afterScheme);

    if u.authority.None? {
      NoDoubleSlash(u.path, afterPath);
    }
    if u.authority.Some? && u.path == [] && afterPath != [] {
      assert afterAuthority[0] == afterPath[0];
    }
    SplitAuthorityOf(u.authority, afterAuthority);
    SplitPathOf(u.path, afterPath);
    SplitQueryOf(u.query, fragmentText);
    if u.fragment.Some? {
      assert fragmentText[1..] == u.fragment.value;
    }
  }

  /** Only the scheme matters to whether a recomposed URI has a scheme. */
  lemma SchemeOfRecompose(u: UriRef)
    requires u.scheme.Some? && u.scheme.value != [] && NoneIn(u.scheme.value, SchemeEnd)
    ensures ParseRef(Recompose(u)).scheme == u.scheme
  {
    var rest := AuthorityText(u.authority) + u.path + QueryText(u.query) + FragmentText(u.fragment);
    assert Recompose(u) == SchemeText(u.scheme) + rest;
    SplitSchemeOf(u.scheme, rest);
  }

  // ---------------------------------------------------------------------------
  // Section 5.2.4: remove_dot_segments

  /** The prefix of `p` up to and including its last '/', or "" when `p` has no '/'. */
  function DirectoryOf(p: string): (d: string)
    ensures |d| <= |p| && d == p[..|d|]
    ensures d == [] || d[|d| - 1] == '/'
    ensures NoneIn(p[|d|..], {'/'})
  {
    if p == [] then []
    else if p[|p| - 1] == '/' then p
    else
      var d := DirectoryOf(p[..|p| - 1]);
      assert p[|d|..] == p[..|p| - 1][|d|..] + [p[|p| - 1]];
      d
  }

  /** Removes the last segment and the '/' before it from the output buffer (rule C). */
  function DropLastSegment(output: string): string
  {
    var d := DirectoryOf(output);
    if d == [] then [] else d[..|d| - 1]
  }

  /** Length of the first segment of a non-empty input, with its leading '/' if any (rule E). */
  function FirstSegmentLength(input: string): (n: nat)
    requires input != []
    ensures 0 < n <= |input|
  {
    if input[0] == '/' then 1 + FindAny(input[1..], {'/'}) else FindAny(input, {'/'})
  }

  /** One pass of the loop in step 2 of section 5.2.4: rules A to E, over the input and output buffers. */
  function Step(input: string, output: string): (next: (string, string))
    requires input != []
    ensures |next.0| < |input|
  {
    if StartsWith(input, "../") then (input[3..], output)
    else if StartsWith(input, "./") then (input[2..], output)
    else if StartsWith(input, "/./") then (input[2..], output)
    else if input == "/." then ("/", output)
    else if StartsWith(input, "/../") then (input[3..], DropLastSegment(output))
    else if input == "/.." then ("/", DropLastSegment(output))
    else if input == "." || input == ".." then ([], output)
    else
      var n := FirstSegmentLength(input);
      (input[n..], output + input[..n])
  }

  /** Runs the loop until the input buffer is empty and yields the output buffer. */
  function RemoveDots(input: string, output: string): string
    decreases |input|
  {
    if input == [] then output
    else
      var next := Step(input, output);
      RemoveDots(next.0, next.1)
  }

  function RemoveDotSegments(path: string): string
  {
    RemoveDots(path, "")
  }

  /** Every step only moves or drops characters: no character of `cs` appears unless one was there. */
  lemma StepKeepsOut(input: string, output: string, cs: set<char>)
    requires input != [] && '/' !in cs
    requires NoneIn(input, cs) && NoneIn(output, cs)
    ensures NoneIn(Step(input, output).0, cs) && NoneIn(Step(input, output).1, cs)
  {
    var d := DirectoryOf(output);
    assert d == output[..|d|];
    if !StartsWith(input, "../") && !StartsWith(input, "./") && !StartsWith(input, "/./")
       && input != "/." && !StartsWith(input, "/../") && input != "/.." && input != "." && input != ".." {
      var n := FirstSegmentLength(input);
      assert forall k :: 0 <= k < |output + input[..n]| ==>
        (output + input[..n])[k] == (if k < |output| then output[k] else input[k - |output|]);
    }
  }

  /** remove_dot_segments brings in no character that neither buffer holds, other than '/'. */
  lemma {:induction false} RemoveDotsKeepsOut(input: string, output: string, cs: set<char>)
    requires '/' !in cs
    requires NoneIn(input, cs) && NoneIn(output, cs)
    ensures NoneIn(RemoveDots(input, output), cs)
    decreases |input|
  {
    if input != [] {
      var next := Step(input, output);
      StepKeepsOut(input, output, cs);
      RemoveDotsKeepsOut(next.0, next.1, cs);
    }
  }

  /** Empty, or beginning with '/'. */
  predicate Rooted(s: string)
  {
    s == [] || s[0] == '/'
  }

  /** A step on rooted buffers leaves them rooted. */
  lemma StepRooted(input: string, output: string)
    requires input != [] && Rooted(input) && Rooted(output)
    ensures Rooted(Step(input, output).0) && Rooted(Step(input, output).1)
  {
    var d := DirectoryOf(output);
    assert d == output[..|d|];
    if !StartsWith(input, "/./") && input != "/." && !StartsWith(input, "/../") && input != "/.." {
      var n := FirstSegmentLength(input);
      var j := FindAny(input[1..], {'/'});
      assert n == 1 + j;
      assert n < |input| ==> input[n] == input[1..][j];
      assert (output + input[..n])[0] == (if output == [] then input[0] else output[0]);
    }
  }

  /** remove_dot_segments keeps an absolute path absolute (or empty). */
  lemma {:induction false} RemoveDotsRooted(input: string, output: string)
    requires Rooted(input) && Rooted(output)
    ensures Rooted(RemoveDots(input, output))
    decreases |input|
  {
    if input != [] {
      var next := Step(input, output);
      StepRooted(input, output);
      RemoveDotsRooted(next.0, next.1);
    }
  }

  /** A segment that is neither "." nor "..", preceded by '/', is moved to the output as it is (rule E). */
  lemma PlainSegment(segment: string, rest: string, output: string)
    requires segment != [] && NoneIn(segment, {'/'}) && segment != "." && segment != ".."
    requires rest == [] || rest[0] == '/'
    ensures RemoveDots("/" + segment + rest, output) == RemoveDots(rest, output + "/" + segment)
  {
    PlainSegmentStep(segment, rest, output);
  }

  /** One step on "/segment" followed by `rest`: rules A to D do not apply and rule E moves "/segment". */
  lemma PlainSegmentStep(segment: string, rest: string, output: string)
    requires segment != [] && NoneIn(segment, {'/'}) && segment != "." && segment != ".."
    requires rest == [] || rest[0] == '/'
    ensures Step("/" + segment + rest, output) == (rest, output + "/" + segment)
  {
    var input := "/" + segment + rest;
    NoDotPattern(segment, rest);
    assert FirstSegmentLength(input) == 1 + |segment| by {
      assert input[1..] == segment + rest;
      FindAnyAt(segment, rest, {'/'});
    }
    assert input[..1 + |segment|] == "/" + segment;
    assert input[1 + |segment|..] == rest;
    assert output + ("/" + segment) == output + "/" + segment;
  }

  /** "/segment" followed by `rest` matches none of the patterns of rules A to D. */
  lemma NoDotPattern(segment: string, rest: string)
    requires segment != [] && NoneIn(segment, {'/'}) && segment != "." && segment != ".."
    requires rest == [] || rest[0] == '/'
    ensures var input := "/" + segment + rest;
      && !StartsWith(input, "../") && !StartsWith(input, "./")
      && !StartsWith(input, "/./") && input != "/."
      && !StartsWith(input, "/../") && input != "/.."
      && input != "." && input != ".."
  {
    var input := "/" + segment + rest;
    assert input[0] == '/';
    assert |input| == 1 + |segment| + |rest| && input[1] == segment[0];
    if |segment| >= 2 {
      assert input[2] == segment[1];
    }
    if |segment| >= 3 {
      assert input[3] == segment[2];
    } else if |segment| == 2 {
      assert segment == [segment[0], segment[1]];
      if rest != [] { assert input[3] == rest[0]; }
    } else {
      assert segment == [segment[0]];
      if rest != [] { assert input[2] == rest[0]; }
    }
  }

  /** The inputs that, followed by '/', would complete one of the patterns of rules A to C. */
  predicate PatternPrefix(s: string)
  {
    s == "." || s == ".." || s == "/." || s == "/.."
  }

  /** Text that continues with '/' after `s` leaves the choice among rules A to D to `s` alone. */
  lemma PatternsWithin(s: string, t: string)
    requires s != [] && !PatternPrefix(s)
    requires t != [] && t[0] == '/'
    ensures StartsWith(s + t, "../") == StartsWith(s, "../")
    ensures StartsWith(s + t, "./") == StartsWith(s, "./")
    ensures StartsWith(s + t, "/./") == StartsWith(s, "/./")
    ensures StartsWith(s + t, "/../") == StartsWith(s, "/../")
    ensures s + t != "/." && s + t != "/.." && s + t != "." && s + t != ".."
  {
    var a := s + t;
    assert a[|s|] == '/';
    assert a[0] == s[0];
    if |s| >= 2 { assert a[1] == s[1]; }
    if |s| >= 3 { assert a[2] == s[2]; }
    if |s| >= 4 { assert a[3] == s[3]; }
    if |s| == 1 {
      assert s == [s[0]];
    } else if |s| == 2 {
      assert s == [s[0], s[1]];
    } else if |s| == 3 {
      assert s == [s[0], s[1], s[2]];
    }
  }

  /** The part of `s` that one step consumes, and the output it leaves, when `s` is followed by '/'. */
  function PrefixStep(s: string, output: string): (nat, string)
    requires s != []
  {
    if StartsWith(s, "../") then (3, output)
    else if StartsWith(s, "./") then (2, output)
    else if StartsWith(s, "/./") then (2, output)
    else if StartsWith(s, "/../") then (3, DropLastSegment(output))
    else
      var n := FirstSegmentLength(s);
      (n, output + s[..n])
  }

  /**
    When the input continues past `s` with a '/', a step consumes a part of `s`
    and writes an output that depend on `s` alone.
   */
  lemma StepWithinPrefix(s: string, t: string, output: string)
    requires s != [] && !PatternPrefix(s)
    requires t != [] && t[0] == '/'
    ensures 0 < PrefixStep(s, output).0 <= |s|
    ensures Step(s + t, output) == ((s + t)[PrefixStep(s, output).0..], PrefixStep(s, output).1)
  {
    PatternsWithin(s, t);
    if !StartsWith(s, "../") && !StartsWith(s, "./") && !StartsWith(s, "/./") && !StartsWith(s, "/../") {
      SegmentWithin(s, t);
    }
  }

  /** The first segment of `s` is the first segment of `s` followed by text that starts with '/'. */
  lemma SegmentWithin(s: string, t: string)
    requires s != [] && t != [] && t[0] == '/'
    ensures FirstSegmentLength(s + t) == FirstSegmentLength(s)
    ensures (s + t)[..FirstSegmentLength(s)] == s[..FirstSegmentLength(s)]
  {
    var a := s + t;
    assert a[0] == s[0];
    if s[0] == '/' {
      assert a[1..] == s[1..] + t;
      FindAnyBefore(s[1..], t, {'/'});
    } else {
      FindAnyBefore(s, t, {'/'});
    }
  }

  /** Dropping a prefix of `s` from `s + t`. */
  lemma DropWithin(s: string, t: string, k: nat)
    requires k <= |s|
    ensures (s + t)[k..] == s[k..] + t
  {
  }

  /** Rules A and B: a leading "../" or "./" is dropped from the input. */
  lemma LeadingDots(p: string, x: string, output: string)
    requires p == "../" || p == "./"
    ensures RemoveDots(p + x, output) == RemoveDots(x, output)
  {
    var a := p + x;
    assert a[0] == '.' && a[1] == p[1] && (p == "../" ==> a[2] == '/');
    assert StartsWith(a, p) && a[|p|..] == x;
    if p == "./" {
      assert !StartsWith(a, "../");
    }
    assert Step(a, output) == (x, output);
  }

  /** Rule B: a leading "/./" is replaced by "/". */
  lemma LeadingSlashDot(x: string, output: string)
    ensures RemoveDots("/./" + x, output) == RemoveDots("/" + x, output)
  {
    var a := "/./" + x;
    assert a[0] == '/' && a[1] == '.' && a[2] == '/';
    assert StartsWith(a, "/./") && a[2..] == "/" + x;
    assert Step(a, output) == ("/" + x, output);
  }

  /** Rule C: a leading "/../" is replaced by "/" and the last output segment is dropped. */
  lemma LeadingSlashDotDot(x: string, output: string)
    ensures RemoveDots("/../" + x, output) == RemoveDots("/" + x, DropLastSegment(output))
  {
    var a := "/../" + x;
    assert a[0] == '/' && a[1] == '.' && a[2] == '.' && a[3] == '/';
    assert StartsWith(a, "/../") && a[3..] == "/" + x;
    assert Step(a, output) == ("/" + x, DropLastSegment(output));
  }

  /** The cases of `DotSegmentNeutral` where the text before "/./" is empty or itself a dot pattern. */
  lemma DotSegmentAfterPattern(s: string, y: string, output: string)
    requires s == [] || PatternPrefix(s)
    ensures RemoveDots(s + "/./" + y, output) == RemoveDots(s + "/" + y, output)
  {
    if s == [] {
      assert s + "/./" + y == "/./" + y && s + "/" + y == "/" + y;
      LeadingSlashDot(y, output);
    } else if s == "." {
      assert s + "/./" + y == "./" + ("./" + y) && s + "/" + y == "./" + y;
      LeadingDots("./", "./" + y, output);
      LeadingDots("./", y, output);
    } else if s == ".." {
      assert s + "/./" + y == "../" + ("./" + y) && s + "/" + y == "../" + y;
      LeadingDots("../", "./" + y, output);
      LeadingDots("./", y, output);
      LeadingDots("../", y, output);
    } else if s == "/." {
      assert s + "/./" + y == "/./" + ("./" + y) && s + "/" + y == "/./" + y;
      assert "/" + ("./" + y) == "/./" + y;
      LeadingSlashDot("./" + y, output);
      LeadingSlashDot(y, output);
    } else {
      assert s + "/./" + y == "/../" + ("./" + y) && s + "/" + y == "/../" + y;
      assert "/" + ("./" + y) == "/./" + y;
      LeadingSlashDotDot("./" + y, output);
      LeadingSlashDotDot(y, output);
      LeadingSlashDot(y, DropLastSegment(output));
    }
  }

  /** A "/./" inside a path means the same as "/": the dot segment is dropped (rule B). */
  lemma {:induction false} DotSegmentNeutral(s: string, y: string, output: string)
    ensures RemoveDots(s + "/./" + y, output) == RemoveDots(s + "/" + y, output)
    decreases |s|
  {
    if s == [] || PatternPrefix(s) {
      DotSegmentAfterPattern(s, y, output);
    } else {
      var t1, t2 := "/./" + y, "/" + y;
      assert s + "/./" + y == s + t1 && s + "/" + y == s + t2;
      StepWithinPrefix(s, t1, output);
      StepWithinPrefix(s, t2, output);
      var (k, next) := PrefixStep(s, output);
      assert RemoveDots(s + t1, output) == RemoveDots(s[k..] + "/./" + y, next) by {
        DropWithin(s, t1, k);
        assert s[k..] + t1 == s[k..] + "/./" + y;
      }
      assert RemoveDots(s + t2, output) == RemoveDots(s[k..] + "/" + y, next) by {
        DropWithin(s, t2, k);
        assert s[k..] + t2 == s[k..] + "/" + y;
      }
      DotSegmentNeutral(s[k..], y, next);
    }
  }

  // ---------------------------------------------------------------------------
  // Sections 5.2.2 and 5.2.3: reference resolution

  /** Section 5.2.3 of RFC 3986. */
  function Merge(base: UriRef, refPath: string): string
  {
    if base.authority.Some? && base.path == [] then "/" + refPath
    else DirectoryOf(base.path) + refPath
  }

  /** The transform of section 5.2.2 of RFC 3986, for a reference that has no scheme. */
  function Resolve(base: UriRef, r: UriRef): UriRef
    requires r.scheme.None?
  {
    if r.authority.Some? then
      UriRef(base.scheme, r.authority, RemoveDotSegments(r.path), r.query, r.fragment)
    else if r.path == [] then
      UriRef(base.scheme, base.authority, base.path, if r.query.Some? then r.query else base.query, r.fragment)
    else if r.path[0] == '/' then
      UriRef(base.scheme, base.authority, RemoveDotSegments(r.path), r.query, r.fragment)
    else
      UriRef(base.scheme, base.authority, RemoveDotSegments(Merge(base, r.path)), r.query, r.fragment)
  }

  /**
    The transform yields components that recompose to a string splitting back
    into them, whenever the result has an authority (the reference's or the
    base's): its path is then empty or absolute, and no component gains a
    character that would end it early.
   */
  lemma ResolvedWellFormed(b: UriRef, r: UriRef)
    requires WellFormed(b) && WellFormed(r)
    requires b.scheme.Some? && r.scheme.None? && (r.authority.Some? || b.authority.Some?)
    ensures WellFormed(Resolve(b, r))
  {
    var t := Resolve(b, r);
    if r.authority.Some? || (r.path != [] && r.path[0] == '/') {
      RemoveDotsKeepsOut(r.path, "", PathEnd);
      RemoveDotsRooted(r.path, "");
    } else if r.path != [] {
      var merged := Merge(b, r.path);
      var d := DirectoryOf(b.path);
      assert b.path != [] ==> d != [] && d[0] == '/';
      assert NoneIn(d, PathEnd) by {
        assert d == b.path[..|d|];
      }
      assert NoneIn(merged, PathEnd) && Rooted(merged) by {
        if b.path == [] {
          assert merged == "/" + r.path;
        } else {
          assert merged == d + r.path;
          assert merged[0] == d[0];
        }
      }
      RemoveDotsKeepsOut(merged, "", PathEnd);
      RemoveDotsRooted(merged, "");
    }
  }

  /** A URI is absolute when it begins with a scheme. */
  predicate IsAbsolute(href: string)
  {
    ParseRef(href).scheme.Some?
  }

  /**
    The address a link's href stands for, given the document's optional base:
    an href that already has a scheme is kept as written; any other href is
    resolved against the base by section 5.2.2 of RFC 3986; with no base, or a
    base without a scheme, a relative href cannot be resolved.
   */
  function ResolveHref(base: Option<string>, href: string): (r: Option<string>)
    ensures IsAbsolute(href) ==> r == Some(href)
    ensures !IsAbsolute(href) ==> (r.Some? <==> base.Some? && IsAbsolute(base.value))
    ensures r.Some? ==> IsAbsolute(r.value)
    ensures r.Some? && !IsAbsolute(href) ==> ParseRef(r.value).scheme == ParseRef(base.value).scheme
    ensures r.Some? && !IsAbsolute(href) && (ParseRef(href).authority.Some? || ParseRef(base.value).authority.Some?)
            ==> ParseRef(r.value) == Resolve(ParseRef(base.value), ParseRef(href))
    ensures r.Some? && !IsAbsolute(href) && ParseRef(href).authority.None? && ParseRef(base.value).authority.Some?
            ==> ParseRef(r.value).authority == ParseRef(base.value).authority
  {
    if IsAbsolute(href) then Some(href)
    else if base.None? || !IsAbsolute(base.value) then None
    else
      var b := ParseRef(base.value);
      var t := Resolve(b, ParseRef(href));
      assert t.scheme == b.scheme;
      assert b.scheme.value != [] && NoneIn(b.scheme.value, SchemeEnd) by {
        ParseWellFormed(base.value);
      }
      assert ParseRef(Recompose(t)).scheme == t.scheme by {
        SchemeOfRecompose(t);
      }
      assert ParseRef(href).authority.Some? || b.authority.Some? ==> ParseRef(Recompose(t)) == t by {
        if ParseRef(href).authority.Some? || b.authority.Some? {
          ParseWellFormed(base.value);
          ParseWellFormed(href);
          ResolvedWellFormed(b, ParseRef(href));
          ParseRecompose(t);
        }
      }
      Some(Recompose(t))
  }

  /**
    "./x" and "x" name the same resource: for a relative-path reference, a
    leading "./" is a dot segment that resolution removes.
   */
  lemma ResolveDotSlash(base: Option<string>, x: string)
    requires ParseRef(x).scheme.None? && ParseRef(x).authority.None?
    requires ParseRef(x).path != [] && ParseRef(x).path[0] != '/'
    ensures ResolveHref(base, "./" + x) == ResolveHref(base, x)
  {
    var r := ParseRef(x);
    var r' := UriRef(None, None, "./" + r.path, r.query, r.fragment);
    ParseDotSlash(x);
    if base.Some? && IsAbsolute(base.value) {
      var b := ParseRef(base.value);
      assert ResolveHref(base, "./" + x) == Some(Recompose(Resolve(b, r')));
      assert ResolveHref(base, x) == Some(Recompose(Resolve(b, r)));
      ResolveDotSlashRef(b, r);
    }
  }

  /** "./x" splits as x does, with "./" in front of its path. */
  lemma ParseDotSlash(x: string)
    requires ParseRef(x).scheme.None? && ParseRef(x).authority.None?
    ensures var r := ParseRef(x);
      ParseRef("./" + x) == UriRef(None, None, "./" + r.path, r.query, r.fragment)
    ensures !IsAbsolute("./" + x)
  {
    var r := ParseRef(x);
    var r' := UriRef(None, None, "./" + r.path, r.query, r.fragment);
    assert Recompose(r') == "./" + x by {
      RecomposeParse(x);
    }
    assert WellFormed(r') by {
      ParseWellFormed(x);
      FindAnyIs(r'.path, SchemeEnd, 1);
    }
    ParseRecompose(r');
  }

  /** The reference-level form of `ResolveDotSlash`. */
  lemma ResolveDotSlashRef(b: UriRef, r: UriRef)
    requires r.scheme.None? && r.authority.None? && r.path != [] && r.path[0] != '/'
    ensures Resolve(b, UriRef(None, None, "./" + r.path, r.query, r.fragment)) == Resolve(b, r)
  {
    if b.authority.Some? && b.path == [] {
      MergeDotSlash("/", r.path);
    } else {
      MergeDotSlash(DirectoryOf(b.path), r.path);
    }
  }

  /** After a merge with a base directory, a leading "./" in the reference path is removed. */
  lemma MergeDotSlash(dir: string, p: string)
    requires dir == [] || dir[|dir| - 1] == '/'
    ensures RemoveDotSegments(dir + ("./" + p)) == RemoveDotSegments(dir + p)
  {
    if dir == [] {
      assert dir + ("./" + p) == "./" + p && dir + p == p;
      LeadingDots("./", p, "");
    } else {
      var s := dir[..|dir| - 1];
      assert dir == s + "/";
      assert dir + ("./" + p) == s + "/./" + p;
      assert dir + p == s + "/" + p;
      DotSegmentNeutral(s, p, "");
    }
  }

  /** The protocol scheme of an address (the servient helper that extracts it is not part of this model). */
  function ExtractScheme(href: string): string
  {
    var scheme := ParseRef(href).scheme;
    if scheme.Some? then scheme.value else ""
  }
}
