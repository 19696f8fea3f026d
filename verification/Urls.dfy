/** Named routes: reversing a pattern, including routes under a prefix, and matching
    a path segment by segment (urls/router.go, urls/route.go). */
module Urls {
  import Templates

  datatype Option<+T> = None | Some(value: T)

  /** Method and path of a route, and its name, "" for none. */
  datatype Route = Route(pattern: string, name: string)

  // ----- Text -----

  /** Position of the first c, or the length. */
  function IndexOfChar(s: string, c: char): (i: nat)
    ensures i <= |s| && (i < |s| ==> s[i] == c) && forall k :: 0 <= k < i ==> s[k] != c
  {
    if s == "" || s[0] == c then 0 else 1 + IndexOfChar(s[1..], c)
  }

  function TrimSlashes(s: string): (r: string)
    ensures r != "" ==> r[0] != '/'
  {
    if s != "" && s[0] == '/' then TrimSlashes(s[1..]) else s
  }

  /** splitMethodPath. */
  function SplitMethodPath(pattern: string): (string, string) {
    var i := IndexOfChar(pattern, ' ');
    if i < |pattern| && i + 1 < |pattern| && pattern[i + 1] == '/' then (pattern[..i], pattern[i + 1..])
    else ("", pattern)
  }

  /** joinPrefixPath. */
  function JoinPrefixPath(prefix: string, path: string): string {
    "/" + PrefixOf(prefix) + TrimSlashes(path)
  }

  function PrefixOf(prefix: string): string {
    var p := TrimSlashes(prefix);
    if p != "" && p[|p| - 1] != '/' then p + "/" else p
  }

  function WithMethod(verb: string, path: string): string {
    if verb != "" then verb + " " + path else path
  }

  lemma SplitOf(verb: string, path: string)
    requires ' ' !in verb && ' ' !in path && path != "" && path[0] == '/'
    ensures SplitMethodPath(WithMethod(verb, path)) == (verb, path)
  {
    if verb != "" {
      SplitBehind(WithMethod(verb, path), verb, path);
    } else {
      assert forall k :: 0 <= k < |path| ==> path[k] in path;
      assert IndexOfChar(path, ' ') == |path|;
    }
  }

  /** The pattern is a method, one space and a path that starts with a slash. */
  predicate HasMethod(pattern: string, verb: string, path: string) {
    pattern == verb + " " + path && ' ' !in verb && "/" <= path
  }

  /** A pattern is split at its first space if a slash follows, and is otherwise all path. */
  lemma SplitMethodIff(pattern: string, verb: string, path: string)
    ensures SplitMethodPath(pattern) == (verb, path) <==>
            HasMethod(pattern, verb, path)
            || (verb == "" && path == pattern && forall v, p :: !HasMethod(pattern, v, p))
  {
    var i := IndexOfChar(pattern, ' ');
    forall v, p | HasMethod(pattern, v, p) ensures SplitMethodPath(pattern) == (v, p) {
      SplitBehind(pattern, v, p);
    }
    if i + 1 < |pattern| && pattern[i + 1] == '/' {
      assert pattern == pattern[..i] + " " + pattern[i + 1..];
      assert HasMethod(pattern, pattern[..i], pattern[i + 1..]);
    }
  }

  lemma SplitBehind(pattern: string, verb: string, path: string)
    requires HasMethod(pattern, verb, path)
    ensures SplitMethodPath(pattern) == (verb, path)
  {
    assert pattern[|verb|] == ' ' && forall k :: 0 <= k < |verb| ==> pattern[k] == verb[k];
    assert IndexOfChar(pattern, ' ') == |verb|;
    assert pattern[..|verb|] == verb && pattern[|verb| + 1..] == path;
  }

  /** t is s without the slashes it starts with. */
  predicate Unslashed(s: string, t: string) {
    && (t != "" ==> t[0] != '/')
    && |t| <= |s| && s[|s| - |t|..] == t && forall j :: 0 <= j < |s| - |t| ==> s[j] == '/'
  }

  lemma {:induction false} TrimSlashesIs(s: string)
    ensures Unslashed(s, TrimSlashes(s))
  {
    if s != "" && s[0] == '/' {
      TrimSlashesIs(s[1..]);
      var n := |s| - |TrimSlashes(s)|;
      assert s[1..][n - 1..] == s[n..];
      assert forall j :: 0 < j < n ==> s[j] == s[1..][j - 1];
    }
  }

  /** One slash, the prefix, and one slash between it and the path. */
  lemma JoinIs(prefix: string, path: string)
    ensures exists p, q :: Joined(prefix, path, p, q, JoinPrefixPath(prefix, path))
  {
    TrimSlashesIs(prefix);
    TrimSlashesIs(path);
    assert Joined(prefix, path, TrimSlashes(prefix), TrimSlashes(path), JoinPrefixPath(prefix, path));
  }

  ghost predicate Joined(prefix: string, path: string, p: string, q: string, joined: string) {
    && Unslashed(prefix, p) && Unslashed(path, q)
    && joined == if p == "" || p[|p| - 1] == '/' then "/" + p + q else "/" + p + "/" + q
  }

  // ----- Placeholders -----

  predicate NameChar(c: char) {
    c != '{' && c != '}' && c != '$'
  }

  /** Position of the first character that cannot be in a name. */
  function NameEnd(s: string): (i: nat)
    ensures i <= |s| && (i < |s| ==> !NameChar(s[i])) && forall k :: 0 <= k < i ==> NameChar(s[k])
  {
    if s == "" || !NameChar(s[0]) then 0 else 1 + NameEnd(s[1..])
  }

  /** Length of the placeholder the text starts with, or 0: the longest match of
      \{[^{}$]+\} at its start. */
  function PlaceholderAt(s: string): (n: nat)
    ensures n <= |s|
  {
    if s == "" || s[0] != '{' then 0
    else
      var n := NameEnd(s[1..]);
      if n > 0 && n + 1 < |s| && s[n + 1] == '}' then n + 2 else 0
  }

  /** A placeholder of n characters is a brace, a name without braces and dollar signs, and
      a closing brace. */
  lemma PlaceholderIff(s: string, n: nat)
    requires n > 0
    ensures PlaceholderAt(s) == n <==>
            && 3 <= n <= |s| && s[0] == '{' && s[n - 1] == '}'
            && forall k :: 1 <= k < n - 1 ==> s[k] != '{' && s[k] != '}' && s[k] != '$'
  {
    if s != "" && s[0] == '{' {
      var m := NameEnd(s[1..]);
      assert forall k :: 1 <= k < |s| ==> s[k] == s[1..][k - 1];
      assert forall k :: 1 <= k <= m ==> NameChar(s[k]);
    }
  }

  /** ReplaceAll(s, "{$}", ""). */
  function DropAnchors(s: string): string {
    if |s| >= 3 && s[..3] == "{$}" then DropAnchors(s[3..])
    else if s == "" then ""
    else [s[0]] + DropAnchors(s[1..])
  }

  /** Number of placeholders of the text. */
  function ParamCount(s: string): nat {
    Templates.Count(PlaceholderAt, s)
  }

  /** The placeholders replaced, left to right, by the arguments. */
  function Fill(s: string, args: seq<string>): string
    requires |args| == ParamCount(s)
  {
    Templates.Fill(PlaceholderAt, s, args)
  }

  // ----- Routers -----

  datatype ReverseError = UnknownName | ArgCount(want: nat, got: nat)

  datatype Reversed = Url(url: string) | Failed(error: ReverseError)

  /** The path part of a pattern without end-of-path anchors. */
  function Template(pattern: string): string {
    DropAnchors(SplitMethodPath(pattern).1)
  }

  function ReverseOf(pattern: string, args: seq<string>): Reversed {
    var t := Template(pattern);
    if ParamCount(t) == |args| then Url(Fill(t, args)) else Failed(ArgCount(ParamCount(t), |args|))
  }

  ghost predicate NamesDiffer(routes: seq<Route>) {
    forall i, j :: 0 <= i < j < |routes| && routes[i].name == routes[j].name ==> routes[i].name == ""
  }

  class Router {
    var byName: map<string, string>

    /** Every name leads to the pattern of its one route. */
    ghost predicate Serves(routes: seq<Route>)
      reads this
    {
      Indexed(routes, |routes|, byName)
    }

    constructor ()
      ensures byName == map[]
    {
      byName := map[];
    }

    method Reverse(name: string, args: seq<string>) returns (r: Reversed)
      ensures r == if name in byName then ReverseOf(byName[name], args) else Failed(UnknownName)
    {
      if name !in byName { return Failed(UnknownName); }
      var (_, raw) := SplitMethodPath(byName[name]);
      var path := DropAnchors(raw);
      var matches := Templates.FindAll(PlaceholderAt, path, 0);
      Templates.CountIsMatches(PlaceholderAt, path, 0);
      assert path[0..] == path;
      if |matches| != |args| { return Failed(ArgCount(|matches|, |args|)); }
      var url := "";
      var pos: nat := 0;
      for i := 0 to |matches|
        invariant Templates.FilledUpTo(PlaceholderAt, path, args, matches, i, pos, url)
      {
        Templates.FillStep(PlaceholderAt, path, args, matches, i, pos, url);
        var loc := matches[i];
        url := url + path[pos..loc.0];
        url := url + args[i];
        pos := loc.1;
      }
      Templates.FillEnd(PlaceholderAt, path, args, matches, pos, url);
      r := Url(url + path[pos..]);
    }
  }

  /** What the index holds after the first n routes. */
  ghost predicate Indexed(routes: seq<Route>, n: nat, byName: map<string, string>) {
    && n <= |routes|
    && (forall i :: 0 <= i < n && routes[i].name != "" ==>
          routes[i].name in byName && byName[routes[i].name] == routes[i].pattern)
    && (forall m :: m in byName ==> m != "" && exists i :: 0 <= i < n && routes[i].name == m)
  }

  lemma NameTaken(routes: seq<Route>, n: nat, byName: map<string, string>)
    requires Indexed(routes, n, byName) && n < |routes| && routes[n].name in byName
    ensures !NamesDiffer(routes)
  {
    var k :| 0 <= k < n && routes[k].name == routes[n].name;
  }

  lemma NameFree(routes: seq<Route>, n: nat, byName: map<string, string>)
    requires Indexed(routes, n, byName) && n < |routes| && routes[n].name != "" && routes[n].name !in byName
    ensures Indexed(routes, n + 1, byName[routes[n].name := routes[n].pattern])
  {
    var more := byName[routes[n].name := routes[n].pattern];
    forall m | m in more
      ensures m != "" && exists i :: 0 <= i < n + 1 && routes[i].name == m
    {
      if m in byName {
        var i :| 0 <= i < n && routes[i].name == m;
      }
    }
  }

  /** NewRouterChecked: None when a name is used twice. */
  method NewRouterChecked(routes: seq<Route>) returns (router: Option<Router>)
    ensures router.Some? <==> NamesDiffer(routes)
    ensures router.Some? ==> fresh(router.value) && router.value.Serves(routes)
  {
    var r := new Router();
    for i := 0 to |routes|
      invariant fresh(r) && Indexed(routes, i, r.byName)
      invariant forall j, k :: 0 <= j < k < i && routes[j].name == routes[k].name ==> routes[j].name == ""
    {
      var route := routes[i];
      if route.name != "" {
        if route.name in r.byName {
          NameTaken(routes, i, r.byName);
          return None;
        }
        NameFree(routes, i, r.byName);
        r.byName := r.byName[route.name := route.pattern];
      }
    }
    router := Some(r);
  }

  // ----- Include -----

  function IncludedRoute(prefix: string, namespace: string, r: Route): Route {
    var (verb, path) := SplitMethodPath(r.pattern);
    Route(WithMethod(verb, JoinPrefixPath(prefix, path)),
          if r.name != "" && namespace != "" then namespace + ":" + r.name else r.name)
  }

  method IncludeRoute(prefix: string, namespace: string, r: Route) returns (out: Route)
    ensures out == IncludedRoute(prefix, namespace, r)
  {
    var (verb, path) := SplitMethodPath(r.pattern);
    var newPath := JoinPrefixPath(prefix, path);
    var newPattern := if verb != "" then verb + " " + newPath else newPath;
    var name := r.name;
    if name != "" && namespace != "" {
      name := namespace + ":" + name;
    }
    out := Route(newPattern, name);
  }

  function IncludedRoutes(prefix: string, namespace: string, routes: seq<Route>): (r: seq<Route>)
    ensures |r| == |routes| && forall i :: 0 <= i < |routes| ==> r[i] == IncludedRoute(prefix, namespace, routes[i])
  {
    seq(|routes|, i requires 0 <= i < |routes| => IncludedRoute(prefix, namespace, routes[i]))
  }

  method Include(prefix: string, namespace: string, routes: seq<Route>) returns (out: array<Route>)
    ensures fresh(out) && out[..] == IncludedRoutes(prefix, namespace, routes)
  {
    out := new Route[|routes|];
    ghost var all := IncludedRoutes(prefix, namespace, routes);
    for i := 0 to |routes|
      invariant out[..i] == all[..i]
    {
      var r := IncludeRoute(prefix, namespace, routes[i]);
      assert r == all[i];
      out[i] := r;
    }
  }

  // ----- The names of included routes -----

  /** The name under a namespace; a route without a name, or without a namespace, keeps
      what it has. */
  predicate Named(namespace: string, name: string, full: string) {
    if name == "" || namespace == "" then full == name
    else
      && |full| == |namespace| + 1 + |name| && namespace < full && full[|namespace|] == ':'
      && full[|namespace| + 1..] == name
  }

  lemma NamedOnce(namespace: string, a: string, b: string, full: string)
    requires Named(namespace, a, full) && Named(namespace, b, full) && a != "" && b != ""
    ensures a == b
  {
  }

  lemma IncludedName(prefix: string, namespace: string, r: Route)
    ensures Named(namespace, r.name, IncludedRoute(prefix, namespace, r).name)
  {
    var full := namespace + ":" + r.name;
    assert full[..|namespace|] == namespace && full[|namespace|] == ':' && full[|namespace| + 1..] == r.name;
  }

  /** Including routes leaves their names different, exactly if they were. */
  lemma IncludedNamesDiffer(prefix: string, namespace: string, routes: seq<Route>)
    ensures NamesDiffer(IncludedRoutes(prefix, namespace, routes)) <==> NamesDiffer(routes)
  {
    var all := IncludedRoutes(prefix, namespace, routes);
    forall i, j | 0 <= i < j < |routes|
      ensures all[i].name == all[j].name && all[i].name != "" <==>
              routes[i].name == routes[j].name && routes[i].name != ""
    {
      IncludedName(prefix, namespace, routes[i]);
      IncludedName(prefix, namespace, routes[j]);
    }
  }

  /** In a router that serves the included routes every named route is found under its
      name in the namespace, and under no other one. */
  lemma IncludedIsServed(prefix: string, namespace: string, routes: seq<Route>, router: Router, i: nat, full: string)
    requires router.Serves(IncludedRoutes(prefix, namespace, routes)) && i < |routes| && routes[i].name != ""
    requires Named(namespace, routes[i].name, full)
    ensures full in router.byName
    ensures router.byName[full] == IncludedRoute(prefix, namespace, routes[i]).pattern
  {
    IncludedName(prefix, namespace, routes[i]);
    assert IncludedRoutes(prefix, namespace, routes)[i].name == full;
  }

  predicate Plain(s: string) {
    '{' !in s && ' ' !in s
  }

  lemma {:induction false} TrimSplits(s: string) returns (slashes: string)
    ensures s == slashes + TrimSlashes(s) && Plain(slashes)
  {
    if s != "" && s[0] == '/' {
      var rest := TrimSplits(s[1..]);
      slashes := "/" + rest;
      assert s == "/" + s[1..] && TrimSlashes(s) == TrimSlashes(s[1..]);
      assert forall c :: c in slashes ==> c == '/' || c in rest;
    } else {
      slashes := "";
    }
  }

  lemma DropOne(c: char, s: string)
    requires c != '{'
    ensures DropAnchors([c] + s) == [c] + DropAnchors(s)
  {
    var t := [c] + s;
    assert t[1..] == s;
    assert |t| >= 3 ==> t[..3][0] == c;
  }

  lemma {:induction false} DropPrefix(a: string, b: string)
    requires '{' !in a
    ensures DropAnchors(a + b) == a + DropAnchors(b)
  {
    if a == "" {
      assert a + b == b;
    } else {
      assert a[0] in a && a + b == [a[0]] + (a[1..] + b);
      DropOne(a[0], a[1..] + b);
      DropPrefix(a[1..], b);
      assert [a[0]] + (a[1..] + DropAnchors(b)) == a + DropAnchors(b);
    }
  }

  lemma PlainPrefix(a: string, b: string)
    requires '{' !in a
    ensures DropAnchors(a + b) == a + DropAnchors(b) && ParamCount(a + b) == ParamCount(b)
    ensures forall args: seq<string> :: |args| == ParamCount(b) ==> Fill(a + b, args) == a + Fill(b, args)
  {
    DropPrefix(a, b);
    forall i | 0 <= i < |a|
      ensures Templates.Len(PlaceholderAt, a[i..] + b) == 0
    {
      assert (a[i..] + b)[0] == a[i] && a[i] in a;
    }
    Templates.CountPrefix(PlaceholderAt, a, b);
    forall args: seq<string> | |args| == ParamCount(b)
      ensures Fill(a + b, args) == a + Fill(b, args)
    {
      Templates.FillPrefix(PlaceholderAt, a, b, args);
    }
  }

  /** What is left of the path once its leading slashes are gone, filled in. */
  function FilledTail(pattern: string, args: seq<string>): string
    requires |args| == ParamCount(DropAnchors(TrimSlashes(SplitMethodPath(pattern).1)))
  {
    Fill(DropAnchors(TrimSlashes(SplitMethodPath(pattern).1)), args)
  }

  lemma TemplateTail(pattern: string, args: seq<string>) returns (slashes: string)
    ensures Plain(slashes) && SplitMethodPath(pattern).1 == slashes + TrimSlashes(SplitMethodPath(pattern).1)
    ensures ParamCount(Template(pattern)) == ParamCount(DropAnchors(TrimSlashes(SplitMethodPath(pattern).1)))
    ensures |args| == ParamCount(Template(pattern)) ==>
            Fill(Template(pattern), args) == slashes + FilledTail(pattern, args)
  {
    var path := SplitMethodPath(pattern).1;
    slashes := TrimSplits(path);
    PlainPrefix(slashes, TrimSlashes(path));
    PlainPrefix(slashes, DropAnchors(TrimSlashes(path)));
  }

  lemma {:induction false} TrimPrefix(slashes: string, s: string)
    requires forall c :: c in slashes ==> c == '/'
    ensures TrimSlashes(slashes + s) == TrimSlashes(s)
  {
    if slashes == "" {
      assert slashes + s == s;
    } else {
      assert slashes[0] in slashes && (slashes + s)[1..] == slashes[1..] + s;
      assert forall c :: c in slashes[1..] ==> c in slashes;
      TrimPrefix(slashes[1..], s);
    }
  }

  lemma {:induction false} TrimShorter(s: string)
    ensures |TrimSlashes(s)| <= |s| && (TrimSlashes(s) == s <==> s == "" || s[0] != '/')
  {
    if s != "" && s[0] == '/' {
      TrimShorter(s[1..]);
    }
  }

  /** The included pattern takes apart into the method and the joined path. */
  lemma IncludedSplits(prefix: string, namespace: string, r: Route)
    requires Plain(prefix) && ' ' !in SplitMethodPath(r.pattern).1
    ensures SplitMethodPath(IncludedRoute(prefix, namespace, r).pattern)
            == (SplitMethodPath(r.pattern).0, JoinPrefixPath(prefix, SplitMethodPath(r.pattern).1))
  {
    var (verb, path) := SplitMethodPath(r.pattern);
    var a := TrimSplits(prefix);
    var b := TrimSplits(path);
    assert prefix == a + TrimSlashes(prefix) && path == b + TrimSlashes(path);
    assert forall c :: c in TrimSlashes(prefix) ==> c in prefix;
    assert forall c :: c in TrimSlashes(path) ==> c in path;
    SplitOf(verb, JoinPrefixPath(prefix, path));
  }

  /** Reversing an included route gives the prefix joined with the original's
      reverse, exactly when filling in does not put a slash in front of the path. */
  lemma IncludeReverseFilled(prefix: string, namespace: string, r: Route, args: seq<string>)
    requires Plain(prefix) && ' ' !in SplitMethodPath(r.pattern).1
    ensures var here, there := ReverseOf(r.pattern, args), ReverseOf(IncludedRoute(prefix, namespace, r).pattern, args);
            && (here.Url? <==> there.Url?)
            && (here.Failed? ==> there == here)
            && (here.Url? ==>
                  ParamCount(DropAnchors(TrimSlashes(SplitMethodPath(r.pattern).1))) == |args|
                  && (there.url == JoinPrefixPath(prefix, here.url) <==>
                      FilledTail(r.pattern, args) == "" || FilledTail(r.pattern, args)[0] != '/'))
  {
    var path := SplitMethodPath(r.pattern).1;
    var slashes := TemplateTail(r.pattern, args);
    IncludedSplits(prefix, namespace, r);
    var front, tail := "/" + PrefixOf(prefix), TrimSlashes(path);
    var a := TrimSplits(prefix);
    assert prefix == a + TrimSlashes(prefix);
    assert '{' !in front;
    PlainPrefix(front, tail);
    PlainPrefix(front, DropAnchors(tail));
    if |args| == ParamCount(Template(r.pattern)) {
      var filled := FilledTail(r.pattern, args);
      SlashesOnly(path, slashes);
      TrimPrefix(slashes, filled);
      TrimShorter(filled);
      assert Fill(DropAnchors(front + tail), args) == front + filled;
      assert JoinPrefixPath(prefix, slashes + filled) == front + TrimSlashes(filled);
      assert (front + filled)[|front|..] == filled && (front + TrimSlashes(filled))[|front|..] == TrimSlashes(filled);
    }
  }

  lemma {:induction false} SlashesOnly(s: string, slashes: string)
    requires s == slashes + TrimSlashes(s)
    ensures forall c :: c in slashes ==> c == '/'
  {
    if s != "" && s[0] == '/' {
      TrimShorter(s[1..]);
      assert slashes != "";
      assert s[1..] == slashes[1..] + TrimSlashes(s[1..]);
      SlashesOnly(s[1..], slashes[1..]);
      assert slashes == [slashes[0]] + slashes[1..] && slashes[0] == s[0];
    } else {
      assert |slashes| == 0;
    }
  }

  // ----- Segments -----

  /** One slash-delimited part of a pattern: Rest is {name...}, Anchor is {$}. */
  datatype Segment = Lit(text: string) | Param(name: string) | Rest(name: string) | Anchor

  function SegmentText(s: Segment): string {
    match s
    case Lit(text) => text
    case Param(name) => "{" + name + "}"
    case Rest(name) => "{" + name + "...}"
    case Anchor => "{$}"
  }

  function PathText(segs: seq<Segment>): string {
    if segs == [] then "" else "/" + SegmentText(segs[0]) + PathText(segs[1..])
  }

  predicate Name(s: string) {
    s != "" && forall i :: 0 <= i < |s| ==> NameChar(s[i]) && s[i] != '/' && s[i] != ' '
  }

  /** Literals hold no slash, brace or space; Rest and Anchor only come last. */
  predicate WellFormed(segs: seq<Segment>) {
    segs != [] ==>
    (match segs[0]
       case Lit(text) => '/' !in text && '{' !in text && '}' !in text && ' ' !in text
       case Param(name) => Name(name)
       case Rest(name) => Name(name) && |segs| == 1
       case Anchor => |segs| == 1)
    && WellFormed(segs[1..])
  }

  function Takes(s: Segment): nat {
    if s.Param? || s.Rest? then 1 else 0
  }

  function Params(segs: seq<Segment>): nat {
    if segs == [] then 0 else Takes(segs[0]) + Params(segs[1..])
  }

  /** The segments with their parameters filled in. */
  function Filled(segs: seq<Segment>, args: seq<string>): string
    requires |args| == Params(segs)
  {
    if segs == [] then ""
    else "/" + (FilledPart(segs[0], args) + Filled(segs[1..], args[Takes(segs[0])..]))
  }

  function FilledPart(s: Segment, args: seq<string>): string
    requires |args| >= Takes(s)
  {
    match s
    case Lit(text) => text
    case Anchor => ""
    case _ => args[0]
  }

  lemma PlaceholderText(name: string, rest: string)
    requires name != "" && forall i :: 0 <= i < |name| ==> NameChar(name[i])
    ensures PlaceholderAt("{" + name + "}" + rest) == |name| + 2
  {
    var s := "{" + name + "}" + rest;
    assert s[1..] == name + "}" + rest;
    assert forall k :: 0 <= k < |name| ==> s[1..][k] == name[k];
    assert s[1..][|name|] == '}';
    assert NameEnd(s[1..]) == |name|;
    assert s[|name| + 1] == '}';
  }

  /** A parameter in front of a text takes the first argument. */
  lemma FillFront(name: string, rest: string, args: seq<string>)
    requires name != "" && (forall i :: 0 <= i < |name| ==> NameChar(name[i]))
    requires args != [] && ParamCount(rest) == |args| - 1
    ensures ParamCount("{" + name + "}" + rest) == |args|
    ensures Fill("{" + name + "}" + rest, args) == args[0] + Fill(rest, args[1..])
  {
    PlaceholderText(name, rest);
    assert ("{" + name + "}" + rest)[|name| + 2..] == rest;
  }

  lemma BraceKept(tail: string)
    requires tail != "" && tail[0] != '$'
    ensures DropAnchors("{" + tail) == "{" + DropAnchors(tail)
  {
    var text := "{" + tail;
    assert text[1..] == tail && text[1] == tail[0];
    assert |text| >= 3 ==> text[..3][1] == tail[0];
  }

  lemma NoBrace(name: string)
    requires forall i :: 0 <= i < |name| ==> NameChar(name[i])
    ensures '{' !in name + "}"
  {
    var front := name + "}";
    forall c | c in front ensures c != '{' {
      var i :| 0 <= i < |front| && front[i] == c;
      assert i < |name| ==> front[i] == name[i];
    }
  }

  lemma ParamKept(name: string, rest: string)
    requires name != "" && forall i :: 0 <= i < |name| ==> NameChar(name[i])
    ensures DropAnchors("{" + name + "}" + rest) == "{" + name + "}" + DropAnchors(rest)
  {
    var front := name + "}";
    NoBrace(name);
    DropPrefix(front, rest);
    assert (front + rest)[0] == name[0];
    BraceKept(front + rest);
    Braced(name, rest);
    Braced(name, DropAnchors(rest));
  }

  lemma Braced(name: string, rest: string)
    ensures "{" + name + "}" + rest == "{" + (name + "}" + rest)
  {
  }

  /** What it takes for the text of one segment to fill in, whatever follows it. */
  ghost predicate Fills(text: string, rest: string, args: seq<string>, part: string, more: seq<string>) {
    && ParamCount(DropAnchors("/" + text + rest)) == |args| && ParamCount(DropAnchors(rest)) == |more|
    && Fill(DropAnchors("/" + text + rest), args) == "/" + (part + Fill(DropAnchors(rest), more))
  }

  /** Text without braces in front of a text is kept. */
  lemma FrontKept(front: string, body: string, args: seq<string>)
    requires '{' !in front && ParamCount(DropAnchors(body)) == |args|
    ensures ParamCount(DropAnchors(front + body)) == |args|
    ensures Fill(DropAnchors(front + body), args) == front + Fill(DropAnchors(body), args)
  {
    DropPrefix(front, body);
    PlainPrefix(front, DropAnchors(body));
  }

  lemma ParamBody(name: string, rest: string, args: seq<string>)
    requires name != "" && (forall i :: 0 <= i < |name| ==> NameChar(name[i]))
    requires args != [] && ParamCount(DropAnchors(rest)) == |args| - 1
    ensures ParamCount(DropAnchors("{" + name + "}" + rest)) == |args|
    ensures Fill(DropAnchors("{" + name + "}" + rest), args) == args[0] + Fill(DropAnchors(rest), args[1..])
  {
    ParamKept(name, rest);
    FillFront(name, DropAnchors(rest), args);
  }

  lemma ParamText(name: string, rest: string, args: seq<string>)
    requires name != "" && (forall i :: 0 <= i < |name| ==> NameChar(name[i]))
    requires args != [] && ParamCount(DropAnchors(rest)) == |args| - 1
    ensures Fills("{" + name + "}", rest, args, args[0], args[1..])
  {
    ParamBody(name, rest, args);
    FrontKept("/", "{" + name + "}" + rest, args);
    assert "/" + ("{" + name + "}") + rest == "/" + ("{" + name + "}" + rest);
  }

  lemma RestText(name: string, rest: string, args: seq<string>)
    requires Name(name) && args != [] && ParamCount(DropAnchors(rest)) == |args| - 1
    ensures Fills("{" + name + "...}", rest, args, args[0], args[1..])
  {
    ParamText(name + "...", rest, args);
    assert "{" + (name + "...") + "}" == "{" + name + "...}";
  }

  lemma LitText(text: string, rest: string, args: seq<string>)
    requires '{' !in text && ParamCount(DropAnchors(rest)) == |args|
    ensures Fills(text, rest, args, text, args)
  {
    FrontKept(text, rest, args);
    FrontKept("/", text + rest, args);
    assert "/" + text + rest == "/" + (text + rest);
  }

  lemma AnchorText()
    ensures Fills("{$}", "", [], "", [])
  {
    var anchor := "{$}";
    assert anchor[..3] == "{$}" && anchor[3..] == "";
    assert DropAnchors(anchor) == "" && ParamCount("") == 0;
    FrontKept("/", anchor, []);
    assert "/" + "{$}" + "" == "/" + anchor;
  }

  /** Dropping anchors and filling placeholders in the text of well-formed segments
      fills in the segments. */
  lemma {:induction false} FillPathText(segs: seq<Segment>, args: seq<string>)
    requires WellFormed(segs) && |args| == Params(segs)
    ensures ParamCount(DropAnchors(PathText(segs))) == |args|
    ensures Fill(DropAnchors(PathText(segs)), args) == Filled(segs, args)
    decreases |segs|
  {
    if segs != [] {
      FillPathText(segs[1..], args[Takes(segs[0])..]);
      FillSegment(segs, args);
    }
  }

  lemma FillSegment(segs: seq<Segment>, args: seq<string>)
    requires WellFormed(segs) && segs != [] && |args| == Params(segs)
    requires ParamCount(DropAnchors(PathText(segs[1..]))) == |args| - Takes(segs[0])
    requires Fill(DropAnchors(PathText(segs[1..])), args[Takes(segs[0])..]) == Filled(segs[1..], args[Takes(segs[0])..])
    ensures ParamCount(DropAnchors(PathText(segs))) == |args|
    ensures Fill(DropAnchors(PathText(segs)), args) == Filled(segs, args)
  {
    SegmentFills(segs[0], PathText(segs[1..]), args);
  }

  /** One segment in front of the text of the others. */
  lemma SegmentFills(seg: Segment, rest: string, args: seq<string>)
    requires match seg
      case Lit(text) => '{' !in text
      case Anchor => rest == "" && args == []
      case _ => Name(seg.name)
    requires |args| >= Takes(seg) && ParamCount(DropAnchors(rest)) == |args| - Takes(seg)
    ensures Fills(SegmentText(seg), rest, args, FilledPart(seg, args), args[Takes(seg)..])
  {
    match seg
    case Lit(text) =>
      assert args[0..] == args;
      LitText(text, rest, args);
    case Anchor => AnchorText();
    case Param(name) => ParamText(name, rest, args);
    case Rest(name) => RestText(name, rest, args);
  }

  // ----- Reversing an included route, by segments -----

  /** Filling in does not put a slash in front of the path: behind leading empty
      segments comes a literal, the end, or a parameter whose argument starts with
      something else than a slash, or is empty and last. */
  predicate LeadOk(segs: seq<Segment>, args: seq<string>)
    requires |args| == Params(segs)
  {
    segs == [] ||
    (match segs[0]
     case Lit(text) => text != "" || LeadOk(segs[1..], args)
     case Anchor => true
     case _ => if args[0] == "" then |segs| == 1 else args[0][0] != '/')
  }

  /** TrimLeft takes the slash and nothing of a text that does not start with one. */
  lemma TrimBehindSlash(text: string, rest: string)
    requires text == "" || text[0] != '/'
    ensures TrimSlashes("/" + text + rest) == if text == "" then TrimSlashes(rest) else text + rest
  {
    var path := "/" + text + rest;
    assert path[0] == '/' && path[1..] == text + rest;
    assert TrimSlashes(path) == TrimSlashes(text + rest);
    if text == "" {
      assert text + rest == rest;
    } else {
      assert (text + rest)[0] == text[0];
    }
  }

  lemma TrimToSegment(segs: seq<Segment>)
    requires WellFormed(segs) && segs != []
    ensures TrimSlashes(PathText(segs)) ==
            if segs[0] == Lit("") then TrimSlashes(PathText(segs[1..])) else SegmentText(segs[0]) + PathText(segs[1..])
  {
    var text := SegmentText(segs[0]);
    assert segs[0].Lit? && text != "" ==> text[0] in text;
    TrimBehindSlash(text, PathText(segs[1..]));
  }

  lemma SegmentLead(segs: seq<Segment>, args: seq<string>)
    requires WellFormed(segs) && segs != [] && segs[0] != Lit("") && |args| == Params(segs)
    ensures ParamCount(DropAnchors(TrimSlashes(PathText(segs)))) == |args|
    ensures var filled := Fill(DropAnchors(TrimSlashes(PathText(segs))), args);
            filled == FilledPart(segs[0], args) + Filled(segs[1..], args[Takes(segs[0])..])
  {
    TrimToSegment(segs);
    FillPathText(segs, args);
    PathTextCons(segs);
    var body := SegmentText(segs[0]) + PathText(segs[1..]);
    BehindSlash(body, FilledPart(segs[0], args) + Filled(segs[1..], args[Takes(segs[0])..]), args);
  }

  lemma PathTextCons(segs: seq<Segment>)
    requires segs != []
    ensures PathText(segs) == "/" + (SegmentText(segs[0]) + PathText(segs[1..]))
  {
  }

  lemma BehindSlash(body: string, filled: string, args: seq<string>)
    requires ParamCount(DropAnchors("/" + body)) == |args| && Fill(DropAnchors("/" + body), args) == "/" + filled
    ensures ParamCount(DropAnchors(body)) == |args| && Fill(DropAnchors(body), args) == filled
  {
    DropPrefix("/", body);
    PlainPrefix("/", DropAnchors(body));
    assert ("/" + Fill(DropAnchors(body), args))[1..] == Fill(DropAnchors(body), args) && ("/" + filled)[1..] == filled;
  }

  lemma {:induction false} LeadIff(segs: seq<Segment>, args: seq<string>)
    requires WellFormed(segs) && |args| == Params(segs)
    ensures ParamCount(DropAnchors(TrimSlashes(PathText(segs)))) == |args|
    ensures var filled := Fill(DropAnchors(TrimSlashes(PathText(segs))), args);
            filled == "" || filled[0] != '/' <==> LeadOk(segs, args)
    decreases |segs|
  {
    if segs != [] {
      TrimToSegment(segs);
      if segs[0] == Lit("") {
        assert args[0..] == args;
        LeadIff(segs[1..], args);
      } else {
        SegmentLead(segs, args);
        FilledStarts(segs[1..], args[Takes(segs[0])..]);
        var part := FilledPart(segs[0], args);
        assert segs[0].Lit? ==> part[0] in part;
        assert part != "" ==> (part + Filled(segs[1..], args[Takes(segs[0])..]))[0] == part[0];
      }
    }
  }

  function SegmentRoute(verb: string, segs: seq<Segment>, name: string): Route {
    Route(WithMethod(verb, PathText(segs)), name)
  }

  /** Reversing an included route of well-formed segments fails as the original does.
      Otherwise it gives the prefix joined with the original's reverse if and only if no
      argument puts a slash in front of the path. */
  lemma IncludeReverseIff(prefix: string, namespace: string, verb: string, segs: seq<Segment>, name: string,
                          args: seq<string>)
    requires Plain(prefix) && ' ' !in verb && WellFormed(segs) && segs != []
    ensures var r := SegmentRoute(verb, segs, name);
            var here, there := ReverseOf(r.pattern, args), ReverseOf(IncludedRoute(prefix, namespace, r).pattern, args);
            && (here.Url? <==> |args| == Params(segs))
            && (here.Failed? ==> there == here)
            && (here.Url? ==> there.Url? && (there.url == JoinPrefixPath(prefix, here.url) <==> LeadOk(segs, args)))
  {
    var r := SegmentRoute(verb, segs, name);
    PathTextIs(segs);
    SplitOf(verb, PathText(segs));
    FillPathText(segs, seq(Params(segs), i => ""));
    IncludeReverseFilled(prefix, namespace, r, args);
    if |args| == Params(segs) {
      LeadIff(segs, args);
    }
  }

  predicate PathParts(args: seq<string>) {
    forall i :: 0 <= i < |args| ==> args[i] != "" && '/' !in args[i]
  }

  lemma {:induction false} PathPartsLeadOk(segs: seq<Segment>, args: seq<string>)
    requires |args| == Params(segs) && PathParts(args)
    ensures LeadOk(segs, args)
    decreases |segs|
  {
    if segs != [] {
      match segs[0]
      case Lit(text) =>
        assert args[0..] == args;
        PathPartsLeadOk(segs[1..], args);
      case Anchor =>
      case _ => assert args[0][0] in args[0];
    }
  }

  /** With nonempty arguments that hold no slash it always does. */
  lemma IncludeReverses(prefix: string, namespace: string, verb: string, segs: seq<Segment>, name: string,
                        args: seq<string>)
    requires Plain(prefix) && ' ' !in verb && WellFormed(segs) && segs != []
    requires |args| == Params(segs) && PathParts(args)
    ensures var r := SegmentRoute(verb, segs, name);
            var here := ReverseOf(r.pattern, args);
            here.Url? && ReverseOf(IncludedRoute(prefix, namespace, r).pattern, args)
              == Url(JoinPrefixPath(prefix, here.url))
  {
    IncludeReverseIff(prefix, namespace, verb, segs, name, args);
    PathPartsLeadOk(segs, args);
  }

  /** "/{p...}" under "blog" with the argument "/x": "//x" is joined to "/blog/x", but
      the included route reverses to "/blog//x". */
  lemma SlashedArgumentDiffers()
    ensures var r := SegmentRoute("", [Rest("p")], "");
            var here := ReverseOf(r.pattern, ["/x"]);
            here.Url? && ReverseOf(IncludedRoute("blog", "", r).pattern, ["/x"])
              != Url(JoinPrefixPath("blog", here.url))
  {
    IncludeReverseIff("blog", "", "", [Rest("p")], "", ["/x"]);
    assert !LeadOk([Rest("p")], ["/x"]);
  }

  // ----- Matching -----

  /** The path cut at its slashes, without the leading one. */
  function Split(path: string): (parts: seq<string>)
    ensures parts != [] && forall p :: p in parts ==> '/' !in p
    decreases |path|
  {
    var i := IndexOfChar(path, '/');
    if i < |path| then [path[..i]] + Split(path[i + 1..]) else [path]
  }

  function Join(parts: seq<string>): string
    requires parts != []
  {
    if |parts| == 1 then parts[0] else parts[0] + "/" + Join(parts[1..])
  }

  /** ServeMux matching of the parts of a path, segment by segment: a literal part
      must be equal, a parameter takes one nonempty part, {name...} takes whatever
      is left, {$} only the end, and a pattern ending in a slash any remainder. */
  function Match(segs: seq<Segment>, parts: seq<string>): Option<seq<string>>
    decreases |segs|
  {
    if segs == [] || parts == [] then (if segs == [] && parts == [] then Some([]) else None)
    else if segs == [Lit("")] then Some([])
    else match segs[0]
      case Lit(text) => if parts[0] == text then Match(segs[1..], parts[1..]) else None
      case Param(_) => if parts[0] == "" then None else Captured(parts[0], Match(segs[1..], parts[1..]))
      case Rest(_) => if |segs| == 1 then Some([Join(parts)]) else None
      case Anchor => if parts == [""] && |segs| == 1 then Some([]) else None
  }

  function Captured(arg: string, rest: Option<seq<string>>): Option<seq<string>> {
    if rest.Some? then Some([arg] + rest.value) else None
  }

  function MatchPath(segs: seq<Segment>, path: string): Option<seq<string>> {
    if path == "" || path[0] != '/' then None else Match(segs, Split(path[1..]))
  }

  /** Arguments that a parameter can hold; {name...} holds anything. */
  ghost predicate Fits(segs: seq<Segment>, args: seq<string>)
    requires |args| == Params(segs)
  {
    segs == [] ||
    ((segs[0].Param? ==> args[0] != "" && '/' !in args[0]) && Fits(segs[1..], args[Takes(segs[0])..]))
  }

  lemma {:induction false} SplitSegment(part: string, rest: string)
    requires '/' !in part
    ensures Split(part) == [part]
    ensures rest != "" && rest[0] == '/' ==> Split(part + rest) == [part] + Split(rest[1..])
  {
    assert IndexOfChar(part, '/') == |part|;
    if rest != "" && rest[0] == '/' {
      var s := part + rest;
      assert s[|part|] == '/' && forall k :: 0 <= k < |part| ==> s[k] == part[k];
      assert IndexOfChar(s, '/') == |part|;
      assert s[..|part|] == part && s[|part| + 1..] == rest[1..];
    }
  }

  lemma JoinCons(part: string, parts: seq<string>)
    requires parts != []
    ensures Join([part] + parts) == part + "/" + Join(parts)
  {
    assert ([part] + parts)[1..] == parts;
  }

  lemma SplitAt(path: string, i: nat)
    requires i < |path| && path[i] == '/' && '/' !in path[..i]
    ensures Split(path) == [path[..i]] + Split(path[i + 1..])
  {
    var rest := path[i..];
    assert path == path[..i] + rest && rest[1..] == path[i + 1..];
    SplitSegment(path[..i], rest);
  }

  lemma {:induction false} JoinSplit(path: string)
    ensures Join(Split(path)) == path
    decreases |path|
  {
    var i := IndexOfChar(path, '/');
    if i < |path| {
      var front, rest := path[..i], path[i + 1..];
      JoinSplit(rest);
      SplitAt(path, i);
      JoinCons(front, Split(rest));
      assert front + "/" + rest == path;
    } else {
      SplitSegment(path, "");
    }
  }

  lemma FilledStarts(segs: seq<Segment>, args: seq<string>)
    requires |args| == Params(segs)
    ensures segs != [] ==> Filled(segs, args) != "" && Filled(segs, args)[0] == '/'
    ensures segs == [] ==> Filled(segs, args) == ""
  {
  }

  /** The parts of the filled-in path are the first segment's and the parts of the rest. */
  lemma FilledParts(part: string, rest: string)
    requires '/' !in part && (rest == "" || rest[0] == '/')
    ensures Split(part + rest) == [part] + if rest == "" then [] else Split(rest[1..])
  {
    SplitSegment(part, rest);
    assert rest == "" ==> part + rest == part;
  }

  /** Matching the filled-in path gives the arguments back. */
  lemma {:induction false} MatchFilled(segs: seq<Segment>, args: seq<string>)
    requires WellFormed(segs) && segs != [] && |args| == Params(segs) && Fits(segs, args)
    ensures Filled(segs, args) != "" && Match(segs, Split(Filled(segs, args)[1..])) == Some(args)
    decreases |segs|
  {
    var more := args[Takes(segs[0])..];
    var part, rest := FilledPart(segs[0], args), Filled(segs[1..], more);
    assert Filled(segs, args)[1..] == part + rest;
    FilledStarts(segs[1..], more);
    if segs[1..] != [] {
      MatchFilled(segs[1..], more);
    }
    MatchOne(segs, args, rest);
  }

  lemma MatchOne(segs: seq<Segment>, args: seq<string>, rest: string)
    requires WellFormed(segs) && segs != [] && |args| == Params(segs) && Fits(segs, args)
    requires (segs[1..] == [] <==> rest == "") && (rest != "" ==> rest[0] == '/')
    requires rest != "" ==> Match(segs[1..], Split(rest[1..])) == Some(args[Takes(segs[0])..])
    ensures Match(segs, Split(FilledPart(segs[0], args) + rest)) == Some(args)
  {
    match segs[0]
    case Lit(_) => MatchOneLit(segs, args, rest);
    case Param(_) => MatchOneParam(segs, args, rest);
    case Rest(_) =>
      LastSegment(segs, args);
      RestIsAll(args, rest);
    case Anchor =>
      LastSegment(segs, args);
      FilledParts("", rest);
  }

  lemma MatchOneLit(segs: seq<Segment>, args: seq<string>, rest: string)
    requires WellFormed(segs) && segs != [] && |args| == Params(segs) && segs[0].Lit?
    requires (segs[1..] == [] <==> rest == "") && (rest != "" ==> rest[0] == '/')
    requires rest != "" ==> Match(segs[1..], Split(rest[1..])) == Some(args[0..])
    ensures Match(segs, Split(segs[0].text + rest)) == Some(args)
  {
    assert args[0..] == args;
    FilledParts(segs[0].text, rest);
    MatchLit(segs, segs[0].text, rest, args);
  }

  lemma MatchOneParam(segs: seq<Segment>, args: seq<string>, rest: string)
    requires WellFormed(segs) && segs != [] && |args| == Params(segs) && segs[0].Param?
    requires args[0] != "" && '/' !in args[0]
    requires (segs[1..] == [] <==> rest == "") && (rest != "" ==> rest[0] == '/')
    requires rest != "" ==> Match(segs[1..], Split(rest[1..])) == Some(args[1..])
    ensures Match(segs, Split(args[0] + rest)) == Some(args)
  {
    FilledParts(args[0], rest);
    MatchParam(segs, args[0], rest, args[1..]);
    assert [args[0]] + args[1..] == args;
  }

  lemma RestIsAll(args: seq<string>, rest: string)
    requires |args| == 1 && rest == ""
    ensures [Join(Split(args[0] + rest))] == args
  {
    assert args[0] + rest == args[0];
    JoinSplit(args[0]);
  }

  lemma LastSegment(segs: seq<Segment>, args: seq<string>)
    requires WellFormed(segs) && segs != [] && |args| == Params(segs) && |segs| == 1
    ensures segs[1..] == [] && |args| == Takes(segs[0])
  {
  }

  lemma MatchLit(segs: seq<Segment>, text: string, rest: string, args: seq<string>)
    requires WellFormed(segs) && segs != [] && segs[0] == Lit(text)
    requires |args| == Params(segs[1..]) && (segs[1..] == [] <==> rest == "")
    requires rest != "" ==> Match(segs[1..], Split(rest[1..])) == Some(args)
    ensures Match(segs, [text] + if rest == "" then [] else Split(rest[1..])) == Some(args)
  {
    var tail := if rest == "" then [] else Split(rest[1..]);
    assert ([text] + tail)[1..] == tail;
    if segs == [Lit("")] {
      assert segs[1..] == [];
    }
  }

  lemma MatchParam(segs: seq<Segment>, arg: string, rest: string, more: seq<string>)
    requires WellFormed(segs) && segs != [] && segs[0].Param? && arg != ""
    requires |more| == Params(segs[1..]) && (segs[1..] == [] <==> rest == "")
    requires rest != "" ==> Match(segs[1..], Split(rest[1..])) == Some(more)
    ensures Match(segs, [arg] + if rest == "" then [] else Split(rest[1..])) == Some([arg] + more)
  {
    var tail := if rest == "" then [] else Split(rest[1..]);
    assert ([arg] + tail)[1..] == tail;
  }

  /** Whatever matching captures fits. */
  lemma {:induction false} CapturesFit(segs: seq<Segment>, parts: seq<string>, args: seq<string>)
    requires Match(segs, parts) == Some(args) && forall p :: p in parts ==> '/' !in p
    ensures |args| == Params(segs) && Fits(segs, args)
    decreases |segs|
  {
    if segs != [] && segs != [Lit("")] {
      assert parts[0] in parts;
      match segs[0] {
        case Lit(_) =>
          CapturesFit(segs[1..], parts[1..], args);
          assert args[0..] == args;
        case Param(_) =>
          var rest := Match(segs[1..], parts[1..]).value;
          CapturesFit(segs[1..], parts[1..], rest);
          assert args[1..] == rest;
        case Rest(_) => assert segs[1..] == [];
        case Anchor => assert segs[1..] == [];
      }
    } else if segs == [Lit("")] {
      assert segs[1..] == [];
    }
  }

  lemma {:induction false} PathTextIs(segs: seq<Segment>)
    requires WellFormed(segs)
    ensures ' ' !in PathText(segs) && (segs != [] ==> PathText(segs) != "" && PathText(segs)[0] == '/')
  {
    if segs != [] {
      PathTextIs(segs[1..]);
    }
  }

  /** Reversing a route and matching the result against its pattern recovers the
      arguments exactly when every plain parameter gets a nonempty argument without
      slashes. */
  lemma ReverseMatchesIff(verb: string, segs: seq<Segment>, args: seq<string>)
    requires ' ' !in verb && WellFormed(segs) && segs != [] && |args| == Params(segs)
    ensures var r := ReverseOf(WithMethod(verb, PathText(segs)), args);
            r.Url? && (MatchPath(segs, r.url) == Some(args) <==> Fits(segs, args))
  {
    PathTextIs(segs);
    SplitOf(verb, PathText(segs));
    FillPathText(segs, args);
    var url := Filled(segs, args);
    if Fits(segs, args) {
      MatchFilled(segs, args);
    }
    if MatchPath(segs, url) == Some(args) {
      CapturesFit(segs, Split(url[1..]), args);
    }
  }
}
