/**
 * The build-time route extraction that feeds the sitemap: scan the route
 * file for `<Route path="…">` elements, drop dynamic and excluded paths,
 * and de-duplicate.
 */
module ExtractRoutes {
  import opened Wrappers
  import opened Text
  import opened Collections

  const Open: string := "<Route"
  const Attr: string := "path=\""

  /** A regular-expression match at the start of a string: the captured path and the matched length. */
  datatype Match = Match(capture: string, length: nat)

  /** The first index of a double quote in `s`, if any. */
  function QuoteIndex(s: string): (r: Option<nat>)
    ensures r.Some? ==> r.value < |s| && s[r.value] == '"' && '"' !in s[..r.value]
    ensures r.None? ==> '"' !in s
  {
    if s == [] then None
    else if s[0] == '"' then Some(0)
    else
      var r := QuoteIndex(s[1..]);
      if r.None? then None
      else
        assert s[..r.value + 1] == [s[0]] + s[1..][..r.value];
        Some(r.value + 1)
  }

  /**
   * `<Route\s+path="([^"]+)"` matched at the start of `t`: the literal
   * `<Route`, the longest run of white space (at least one character),
   * `path="`, then the longest run of non-quote characters, which must be
   * non-empty and followed by a quote.
   */
  function MatchPrefix(t: string): (r: Option<Match>)
    ensures r.Some? ==> 1 <= r.value.length <= |t|
  {
    if |t| < |Open| || t[..|Open|] != Open then None
    else
      var afterOpen := t[|Open|..];
      var u := TrimStart(afterOpen);
      if |u| == |afterOpen| || |u| < |Attr| || u[..|Attr|] != Attr then None
      else
        var v := u[|Attr|..];
        var q := QuoteIndex(v);
        if q.None? || q.value == 0 then None
        else Some(Match(v[..q.value], |t| - |v| + q.value + 1))
  }

  /** A string laid out as one occurrence of the pattern followed by anything. */
  lemma MatchPrefixComplete(w: string, path: string, rest: string)
    requires w != [] && AllSpaces(w)
    requires path != [] && '"' !in path
    ensures MatchPrefix(Open + w + Attr + path + "\"" + rest)
         == Some(Match(path, |Open| + |w| + |Attr| + |path| + 1))
  {
    var tail := Attr + path + "\"" + rest;
    var t := Open + w + Attr + path + "\"" + rest;
    assert t == Open + (w + tail);
    assert t[..|Open|] == Open && t[|Open|..] == w + tail;
    TrimStartPadded(w, tail);
    var v := path + "\"" + rest;
    assert tail == Attr + v && tail[..|Attr|] == Attr && tail[|Attr|..] == v;
    QuoteSplit(path, rest);
    assert v[..|path|] == path;
  }

  lemma QuoteSplit(path: string, rest: string)
    requires '"' !in path
    ensures QuoteIndex(path + "\"" + rest) == Some(|path|)
  {
    var v := path + "\"" + rest;
    assert v[|path|] == '"';
    assert v[..|path|] == path;
  }

  /** A match has exactly that layout. */
  lemma MatchPrefixSound(t: string)
    requires MatchPrefix(t).Some?
    ensures var m := MatchPrefix(t).value;
      m.capture != [] && '"' !in m.capture &&
      exists w, rest :: w != [] && AllSpaces(w) && t == Open + w + Attr + m.capture + "\"" + rest
        && m.length == |Open| + |w| + |Attr| + |m.capture| + 1
  {
    var m := MatchPrefix(t).value;
    var afterOpen := t[|Open|..];
    var u := TrimStart(afterOpen);
    TrimStartSplits(afterOpen);
    var w := afterOpen[..|afterOpen| - |u|];
    var v := u[|Attr|..];
    var q := QuoteIndex(v).value;
    var rest := v[q + 1..];
    Cut(t, |Open|);
    Cut(u, |Attr|);
    Cut(v, q);
    Cut(v[q..], 1);
    Assemble(t, afterOpen, w, u, v, m.capture, v[q..], rest);
    assert m.capture == v[..q] && |m.capture| == q;
    assert |t| == |Open| + |w| + |Attr| + |v|;
    assert w != [] && AllSpaces(w);
    assert m.length == |Open| + |w| + |Attr| + |m.capture| + 1;
  }

  lemma Cut(s: string, n: nat)
    requires n <= |s|
    ensures s == s[..n] + s[n..]
  {
  }

  lemma Assemble(t: string, afterOpen: string, w: string, u: string, v: string, cap: string, qr: string, rest: string)
    requires t == Open + afterOpen && afterOpen == w + u && u == Attr + v
    requires v == cap + qr && qr == "\"" + rest
    ensures t == Open + w + Attr + cap + "\"" + rest
  {
  }

  /**
   * The paths the global regular expression yields on `t`: at each
   * position, a match there is taken and scanning resumes after it;
   * otherwise scanning moves one character on.
   */
  function Captures(t: string): seq<string>
    decreases |t|
  {
    if t == [] then []
    else match MatchPrefix(t)
      case Some(m) => [m.capture] + Captures(t[m.length..])
      case None => Captures(t[1..])
  }

  /** A found match: where it starts, what it captured, and where the next search begins. */
  datatype Found = Found(start: nat, capture: string, end: nat)

  /** `pathRegex.exec(content)` with `lastIndex == from`: the leftmost match starting at or after `from`. */
  function Exec(content: string, from: nat): (r: Option<Found>)
    requires from <= |content|
    decreases |content| - from
    ensures r.Some? ==>
              (from <= r.value.start < r.value.end <= |content|
               && MatchPrefix(content[r.value.start..]) == Some(Match(r.value.capture, r.value.end - r.value.start)))
  {
    if from == |content| then None
    else match MatchPrefix(content[from..])
      case Some(m) => Some(Found(from, m.capture, from + m.length))
      case None => Exec(content, from + 1)
  }

  /** The match `exec` finds is the leftmost one: no position between `lastIndex` and it matches. */
  lemma {:induction false} ExecLeftmost(content: string, from: nat)
    requires from <= |content|
    decreases |content| - from
    ensures var r := Exec(content, from);
      r.Some? ==> forall j :: from <= j < r.value.start ==> MatchPrefix(content[j..]).None?
  {
    if from < |content| && MatchPrefix(content[from..]).None? {
      ExecLeftmost(content, from + 1);
    }
  }

  /** `exec` finds nothing only when no position from `lastIndex` on matches. */
  lemma {:induction false} ExecNone(content: string, from: nat)
    requires from <= |content|
    decreases |content| - from
    ensures Exec(content, from).None? ==> forall j :: from <= j < |content| ==> MatchPrefix(content[j..]).None?
  {
    if from < |content| && MatchPrefix(content[from..]).None? {
      ExecNone(content, from + 1);
    }
  }

  /** Each `exec` call yields the next path of the scan. */
  lemma {:induction false} ExecScans(content: string, from: nat)
    requires from <= |content|
    decreases |content| - from
    ensures Exec(content, from).None? ==> Captures(content[from..]) == []
    ensures Exec(content, from).Some? ==>
              Captures(content[from..])
              == [Exec(content, from).value.capture] + Captures(content[Exec(content, from).value.end..])
  {
    if from < |content| {
      var t := content[from..];
      match MatchPrefix(t)
      case Some(m) =>
        assert t[m.length..] == content[from + m.length..];
      case None =>
        assert t[1..] == content[from + 1..];
        ExecScans(content, from + 1);
    }
  }

  /** The `while ((match = pathRegex.exec(content)) !== null)` loop. */
  method ScanRoutes(content: string) returns (routes: seq<string>)
    ensures routes == Captures(content)
  {
    routes := [];
    var last := 0;
    var found := Exec(content, last);
    ExecScans(content, last);
    assert content[0..] == content;
    while found.Some?
      invariant last <= |content|
      invariant found == Exec(content, last)
      invariant routes + Captures(content[last..]) == Captures(content)
      decreases |content| - last
    {
      ExecScans(content, last);
      routes := routes + [found.value.capture];
      last := found.value.end;
      found := Exec(content, last);
    }
    ExecScans(content, last);
  }

  /** The options of `extractRoutes` and their defaults. */
  datatype RouteOptions = RouteOptions(routeFilePath: string, excludeList: seq<string>, excludeDynamic: bool)

  const DefaultOptions := RouteOptions("src/App.tsx", [], true)

  /** The filter's test for one path. */
  predicate Keep(route: string, excludeList: seq<string>, excludeDynamic: bool) {
    !(excludeDynamic && ':' in route) && route !in excludeList
  }

  /** `routes.filter(...)`: the kept paths, in order. */
  function FilterRoutes(routes: seq<string>, excludeList: seq<string>, excludeDynamic: bool): seq<string> {
    if routes == [] then []
    else
      var p, x := routes[..|routes| - 1], routes[|routes| - 1];
      var f := FilterRoutes(p, excludeList, excludeDynamic);
      if Keep(x, excludeList, excludeDynamic) then f + [x] else f
  }

  /** The filter keeps exactly the paths that pass the test, in their order. */
  lemma {:induction false} FilterRoutesProperties(routes: seq<string>, excludeList: seq<string>, excludeDynamic: bool)
    ensures var r := FilterRoutes(routes, excludeList, excludeDynamic);
      && (forall x :: x in r <==> x in routes && Keep(x, excludeList, excludeDynamic))
      && IsSubsequence(r, routes)
  {
    FilterRoutesMembers(routes, excludeList, excludeDynamic);
    FilterRoutesOrder(routes, excludeList, excludeDynamic);
  }

  lemma {:induction false} FilterRoutesMembers(routes: seq<string>, excludeList: seq<string>, excludeDynamic: bool)
    ensures forall x :: x in FilterRoutes(routes, excludeList, excludeDynamic) <==>
      x in routes && Keep(x, excludeList, excludeDynamic)
  {
    if routes != [] {
      var p, y := routes[..|routes| - 1], routes[|routes| - 1];
      assert routes == p + [y];
      FilterRoutesMembers(p, excludeList, excludeDynamic);
      FilterSnoc(p, y, excludeList, excludeDynamic);
    }
  }

  lemma {:induction false} FilterRoutesOrder(routes: seq<string>, excludeList: seq<string>, excludeDynamic: bool)
    ensures IsSubsequence(FilterRoutes(routes, excludeList, excludeDynamic), routes)
  {
    if routes != [] {
      var p, y := routes[..|routes| - 1], routes[|routes| - 1];
      assert routes == p + [y];
      FilterRoutesOrder(p, excludeList, excludeDynamic);
      FilterSnoc(p, y, excludeList, excludeDynamic);
      SubsequenceSnoc(FilterRoutes(p, excludeList, excludeDynamic), p, y);
    }
  }

  /** What `extractRoutes` returns for a route file's content. */
  function RoutesOf(content: string, options: RouteOptions): seq<string> {
    DedupFirst(FilterRoutes(Captures(content), options.excludeList, options.excludeDynamic))
  }

  /** The returned paths: the kept captures, each once, in order of first occurrence. */
  lemma RoutesOfProperties(content: string, options: RouteOptions)
    ensures var r := RoutesOf(content, options);
      && Distinct(r)
      && (forall x :: x in r <==> x in Captures(content) && Keep(x, options.excludeList, options.excludeDynamic))
      && IsSubsequence(r, Captures(content))
  {
    var f := FilterRoutes(Captures(content), options.excludeList, options.excludeDynamic);
    FilterRoutesProperties(Captures(content), options.excludeList, options.excludeDynamic);
    DedupFirstProperties(f);
    DedupFirstSubsequence(f);
    SubsequenceTransitive(DedupFirst(f), f, Captures(content));
  }

  /**
   * `extractRoutes(options)`; `file` is the result of reading the route
   * file, `None` when reading threw.
   */
  method ExtractRoutes(options: RouteOptions, file: Option<string>) returns (routes: seq<string>)
    ensures file.None? ==> routes == []
    ensures file.Some? ==> routes == RoutesOf(file.value, options)
    ensures file.Some? ==> Distinct(routes) && forall x :: x in routes <==>
              x in Captures(file.value) && Keep(x, options.excludeList, options.excludeDynamic)
  {
    if file.None? {
      return [];
    }
    var all := ScanRoutes(file.value);
    var filtered := FilterRoutes(all, options.excludeList, options.excludeDynamic);
    routes := DedupFirst(filtered);
    RoutesOfProperties(file.value, options);
  }

  /** Text without a `<` contributes no path. */
  lemma {:induction false} SkipPlain(a: string, b: string)
    requires '<' !in a
    ensures Captures(a + b) == Captures(b)
  {
    if a != [] {
      assert (a + b)[0] == a[0];
      assert MatchPrefix(a + b).None?;
      assert (a + b)[1..] == a[1..] + b;
      SkipPlain(a[1..], b);
    } else {
      assert a + b == b;
    }
  }

  /** A `<` that does not begin `<Route` contributes no path. */
  lemma SkipOtherTag(x: string, b: string)
    requires x != [] && x[0] != 'R'
    ensures Captures("<" + x + b) == Captures(x + b)
  {
    var t := "<" + x + b;
    assert t[1] == x[0] && Open[1] == 'R';
    if |t| >= |Open| {
      assert t[..|Open|][1] == x[0];
    }
    assert MatchPrefix(t).None?;
    assert t[1..] == x + b;
  }

  const Indent: string := "          "
  const ElementOpen: string := " element={"
  const ElementClose: string := " />} />\n"

  /** One route element, as the route file lays it out on a line. */
  function RouteLine(path: string, component: string): string {
    Indent + Open + " " + Attr + path + "\"" + ElementOpen + "<" + component + ElementClose
  }

  lemma LayoutFacts()
    ensures '<' !in Indent && '<' !in ElementOpen && '<' !in ElementClose
    ensures AllSpaces(" ")
  {
  }

  lemma Regroup(a: string, w: string, path: string, c: string, comp: string, e: string, rest: string)
    ensures a + Open + w + Attr + path + "\"" + c + "<" + comp + e + rest
         == a + (Open + w + Attr + path + "\"" + (c + ("<" + comp + (e + rest))))
  {
  }

  /** A line holding one route element and other tags contributes exactly the element's path. */
  lemma GenericLine(a: string, w: string, path: string, c: string, comp: string, e: string, rest: string)
    requires '<' !in a && '<' !in c && '<' !in e && '<' !in comp
    requires w != [] && AllSpaces(w)
    requires path != [] && '"' !in path
    requires comp != [] && comp[0] != 'R'
    ensures Captures(a + Open + w + Attr + path + "\"" + c + "<" + comp + e + rest) == [path] + Captures(rest)
  {
    Regroup(a, w, path, c, comp, e, rest);
    var x := c + ("<" + comp + (e + rest));
    var t := Open + w + Attr + path + "\"" + x;
    SkipPlain(a, t);
    MatchPrefixComplete(w, path, x);
    var n := |Open| + |w| + |Attr| + |path| + 1;
    assert t[n..] == x;
    SkipPlain(c, "<" + comp + (e + rest));
    SkipOtherTag(comp, e + rest);
    assert comp + (e + rest) == (comp + e) + rest;
    SkipPlain(comp + e, rest);
  }

  lemma RouteLineCaptures(path: string, component: string, rest: string)
    requires path != [] && '"' !in path
    requires component != [] && component[0] != 'R' && '<' !in component
    ensures Captures(RouteLine(path, component) + rest) == [path] + Captures(rest)
  {
    LayoutFacts();
    GenericLine(Indent, " ", path, ElementOpen, component, ElementClose, rest);
  }

  /** The comment line between the admin route and the catch-all route. */
  const CatchAllComment: string :=
    Indent + "{/* " + "ADD ALL CUSTOM " + "ROUTES ABOVE " + "THE CATCH-ALL " + "\"*\" ROUTE */}\n"

  /** The route elements of the application's router. */
  const AppRoutes: string :=
    RouteLine("/", "HomePage")
    + RouteLine("/person/:personId", "PersonDetailPage")
    + RouteLine("/admin", "AdminPage")
    + CatchAllComment
    + RouteLine("*", "NotFound")

  /** The options the build configuration passes. */
  const SitemapOptions := RouteOptions("src/App.tsx", ["/", "*"], true)

  /** The catch-all comment holds no '<', so no match can start inside it. */
  lemma CommentPlain()
    ensures '<' !in CatchAllComment
  {
    LayoutFacts();
    assert '<' !in "{/* " && '<' !in "ADD ALL CUSTOM " && '<' !in "ROUTES ABOVE ";
    assert '<' !in "THE CATCH-ALL " && '<' !in "\"*\" ROUTE */}\n";
  }

  lemma AppLayout()
    ensures '<' !in CatchAllComment
    ensures "HomePage"[0] != 'R' && '<' !in "HomePage"
    ensures "PersonDetailPage"[0] != 'R' && '<' !in "PersonDetailPage"
    ensures "AdminPage"[0] != 'R' && '<' !in "AdminPage"
    ensures "NotFound"[0] != 'R' && '<' !in "NotFound"
    ensures '"' !in "/" && '"' !in "/person/:personId" && '"' !in "/admin" && '"' !in "*"
  {
    CommentPlain();
  }

  /** Four route lines with a plain comment line before the last one yield their four paths. */
  lemma FourRoutes(p1: string, c1: string, p2: string, c2: string, p3: string, c3: string,
                   comment: string, p4: string, c4: string)
    requires p1 != [] && '"' !in p1 && c1 != [] && c1[0] != 'R' && '<' !in c1
    requires p2 != [] && '"' !in p2 && c2 != [] && c2[0] != 'R' && '<' !in c2
    requires p3 != [] && '"' !in p3 && c3 != [] && c3[0] != 'R' && '<' !in c3
    requires p4 != [] && '"' !in p4 && c4 != [] && c4[0] != 'R' && '<' !in c4
    requires '<' !in comment
    ensures Captures(RouteLine(p1, c1) + RouteLine(p2, c2) + RouteLine(p3, c3) + comment + RouteLine(p4, c4))
         == [p1, p2, p3, p4]
  {
    var l1, l2, l3, l4 := RouteLine(p1, c1), RouteLine(p2, c2), RouteLine(p3, c3), RouteLine(p4, c4);
    RouteLineCaptures(p4, c4, []);
    SkipPlain(comment, l4);
    RouteLineCaptures(p3, c3, comment + l4);
    RouteLineCaptures(p2, c2, l3 + (comment + l4));
    RouteLineCaptures(p1, c1, l2 + (l3 + (comment + l4)));
    Compose4(l1, l2, l3, comment, l4, p1, p2, p3, p4);
  }

  /** The list algebra behind `FourRoutes`, on abstract pieces. */
  lemma Compose4(l1: string, l2: string, l3: string, cm: string, l4: string,
                 p1: string, p2: string, p3: string, p4: string)
    requires Captures(l4 + []) == [p4] + Captures([])
    requires Captures(cm + l4) == Captures(l4)
    requires Captures(l3 + (cm + l4)) == [p3] + Captures(cm + l4)
    requires Captures(l2 + (l3 + (cm + l4))) == [p2] + Captures(l3 + (cm + l4))
    requires Captures(l1 + (l2 + (l3 + (cm + l4)))) == [p1] + Captures(l2 + (l3 + (cm + l4)))
    ensures Captures(l1 + l2 + l3 + cm + l4) == [p1, p2, p3, p4]
  {
    assert l4 + [] == l4;
    Assoc5(l1, l2, l3, cm, l4);
  }

  lemma Assoc5(a: string, b: string, c: string, d: string, e: string)
    ensures a + b + c + d + e == a + (b + (c + (d + e)))
  {
  }

  /** The paths the regular expression finds in the application's route elements. */
  lemma AppCaptures()
    ensures Captures(AppRoutes) == ["/", "/person/:personId", "/admin", "*"]
  {
    AppLayout();
    FourRoutes("/", "HomePage", "/person/:personId", "PersonDetailPage", "/admin", "AdminPage",
      CatchAllComment, "*", "NotFound");
  }

  /** Filtering one more path appends it exactly when the test keeps it. */
  lemma FilterSnoc(p: seq<string>, x: string, excludeList: seq<string>, excludeDynamic: bool)
    ensures FilterRoutes(p + [x], excludeList, excludeDynamic)
         == FilterRoutes(p, excludeList, excludeDynamic) + if Keep(x, excludeList, excludeDynamic) then [x] else []
  {
    assert (p + [x])[..|p|] == p;
  }

  lemma SitemapKeep()
    ensures !Keep("/", ["/", "*"], true) && !Keep("*", ["/", "*"], true)
    ensures !Keep("/person/:personId", ["/", "*"], true)
    ensures Keep("/admin", ["/", "*"], true)
  {
    assert "/person/:personId"[8] == ':';
    assert "/admin" != "/" && "/admin" != "*";
  }

  lemma SitemapFilter()
    ensures FilterRoutes(["/", "/person/:personId", "/admin", "*"], ["/", "*"], true) == ["/admin"]
  {
    var a, b, c, d := "/", "/person/:personId", "/admin", "*";
    var ex := ["/", "*"];
    SitemapKeep();
    FilterSnoc([], a, ex, true);
    assert [] + [a] == [a];
    FilterSnoc([a], b, ex, true);
    FilterSnoc([a, b], c, ex, true);
    FilterSnoc([a, b, c], d, ex, true);
    assert [a] + [b] == [a, b] && [a, b] + [c] == [a, b, c] && [a, b, c] + [d] == [a, b, c, d];
  }

  /** On the application's routes the sitemap receives only the admin page. */
  lemma SitemapRoutes()
    ensures RoutesOf(AppRoutes, SitemapOptions) == ["/admin"]
  {
    AppCaptures();
    SitemapFilter();
    assert DedupFirst(["/admin"]) == ["/admin"];
  }
}
