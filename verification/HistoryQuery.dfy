/** The history query: its SQL conditions, LIKE, and the exact filter applied in memory afterwards. */
module HistoryQuery {
  import opened Lists
  import opened Words
  import opened UrlPath

  datatype Row = Row(id: nat, host: string, port: nat, method_: string, url: string, status: nat, inScope: bool)

  datatype Filter = Filter(
    search: string, host: string, port: nat, pathPrefix: string, showOutScope: bool,
    methods: seq<string>, statusMin: nat, statusMax: nat, hideStatic: bool)

  const PAGE_SIZE := 100

  // ---- LIKE ----

  /** SQL's LIKE: `%` is any text, `_` any character, letters match in either case. */
  predicate Like(p: string, s: string)
    decreases |p| + |s|
  {
    if p == "" then s == ""
    else if p[0] == '%' then Like(p[1..], s) || (s != "" && Like(p, s[1..]))
    else s != "" && (p[0] == '_' || LowerChar(p[0]) == LowerChar(s[0])) && Like(p[1..], s[1..])
  }

  lemma {:induction false} LikeAnyText(s: string)
    ensures Like("%", s)
    decreases |s|
  {
    if s == "" {
      assert Like("", "");
    } else {
      LikeAnyText(s[1..]);
    }
  }

  /** A text matches itself, percent signs and underscores included. */
  lemma {:induction false} LikeSelf(t: string, p: string, s: string)
    requires Like(p, s)
    ensures Like(t + p, t + s)
  {
    if t == "" {
      assert t + p == p && t + s == s;
    } else {
      LikeSelf(t[1..], p, s);
      assert (t + p)[1..] == t[1..] + p && (t + s)[1..] == t[1..] + s;
      if t[0] == '%' {
        assert Like((t + p)[1..], (t + s)[1..]);
        LikeSkip(t + p, t + s);
      }
    }
  }

  lemma LikeSkip(p: string, s: string)
    requires p != "" && s != "" && p[0] == '%' && Like(p[1..], s[1..])
    ensures Like(p, s)
  {
    assert Like(p, s[1..]);
  }

  lemma {:induction false} LikeAfter(a: string, p: string, s: string)
    requires Like(p, s)
    ensures Like("%" + p, a + s)
  {
    var q := "%" + p;
    assert q[1..] == p;
    if a == "" {
      assert a + s == s;
    } else {
      LikeAfter(a[1..], p, s);
      assert (a + s)[1..] == a[1..] + s;
    }
  }

  // ---- the path condition ----

  /** The three patterns of the SQL pre-filter. */
  predicate PathLike(url: string, prefix: string) {
    Like("%" + prefix, url) || Like("%" + (prefix + "?%"), url) || Like("%" + (prefix + "/%"), url)
  }

  /** The exact test: the tree path is the prefix, or lies under it. */
  predicate Under(url: string, prefix: string) {
    TreePathOf(url) == prefix || (prefix + "/") <= TreePathOf(url)
  }

  lemma LikeSomewhere(a: string, t: string, b: string)
    ensures Like("%" + (t + "%"), a + (t + b))
  {
    LikeAnyText(b);
    LikeSelf(t, "%", b);
    LikeAfter(a, t + "%", t + b);
  }

  lemma LikeAtEnd(a: string, t: string)
    ensures Like("%" + t, a + t)
  {
    LikeSelf(t, "", "");
    assert t + "" == t;
    LikeAfter(a, t, t);
  }

  /** The pre-filter loses nothing: every URL whose tree path is the prefix or lies under it matches one of
      the three patterns, whatever characters the prefix is made of. */
  lemma PreFilterLosesNothing(url: string, prefix: string)
    requires prefix != "" && Under(url, prefix)
    ensures PathLike(url, prefix)
  {
    hide Like, TreePathOf;
    var path := TreePathOf(url);
    var before, after := TreePathInUrl(url);
    if url == before + path + after && (after == "" || after[0] == '?') {
      if path == prefix {
        if after == "" {
          assert url == before + prefix;
          LikeAtEnd(before, prefix);
        } else {
          assert url == before + ((prefix + "?") + after[1..]);
          assert (prefix + "?") + "%" == prefix + "?%";
          LikeSomewhere(before, prefix + "?", after[1..]);
        }
      } else {
        var more := path[|prefix| + 1..] + after;
        assert path == (prefix + "/") + path[|prefix| + 1..];
        assert url == before + ((prefix + "/") + more);
        assert (prefix + "/") + "%" == prefix + "/%";
        LikeSomewhere(before, prefix + "/", more);
      }
    } else {
      assert prefix == "/";
      var a: string, b: string :| url == a + "//" + b;
      assert url == a + (("/" + "/") + b) && ("/" + "/") + "%" == prefix + "/%";
      LikeSomewhere(a, "/" + "/", b);
    }
  }

  // ---- conditions ----

  datatype Condition =
    | IdBelow(id: nat) | InScope | HostIs(host: string) | PortIs(port: nat) | UrlUnder(prefix: string)
    | Mentions(term: string) | MethodIn(methods: seq<string>) | StatusFrom(min: nat) | StatusTo(max: nat)

  function ToUpper(s: string): string {
    seq(|s|, i requires 0 <= i < |s| => UpperChar(s[i]))
  }

  predicate TermIn(r: Row, term: string) {
    var like := "%" + term + "%";
    Like(like, ToLower(r.host)) || Like(like, ToLower(r.url)) || Like(like, ToLower(r.method_))
      || Like(like, Dec(r.status))
  }

  predicate Holds(r: Row, c: Condition) {
    match c
    case IdBelow(id) => r.id < id
    case InScope => r.inScope
    case HostIs(h) => r.host == h
    case PortIs(p) => r.port == p
    case UrlUnder(prefix) => PathLike(r.url, prefix)
    case Mentions(term) => TermIn(r, term)
    case MethodIn(ms) => r.method_ in ms
    case StatusFrom(min) => r.status >= min
    case StatusTo(max) => r.status <= max
  }

  /** The WHERE clause. */
  predicate AllHold(r: Row, cs: seq<Condition>) {
    forall i :: 0 <= i < |cs| ==> Holds(r, cs[i])
  }

  /** What the filter asks for, path aside. */
  ghost predicate MeetsRest(r: Row, f: Filter) {
    && (f.showOutScope || r.inScope)
    && (f.host != "" ==> r.host == f.host && (f.port != 0 ==> r.port == f.port))
    && (forall i :: 0 <= i < |Fields(ToLower(f.search))| ==> TermIn(r, Fields(ToLower(f.search))[i]))
    && (f.methods != [] ==> exists i :: 0 <= i < |f.methods| && r.method_ == ToUpper(f.methods[i]))
    && (f.statusMin > 0 ==> r.status >= f.statusMin)
    && (f.statusMax > 0 ==> r.status <= f.statusMax)
  }

  ghost predicate Meets(r: Row, f: Filter) {
    MeetsRest(r, f) && (f.pathPrefix != "" ==> PathLike(r.url, f.pathPrefix))
  }


  function TermClause(terms: seq<string>): seq<Condition> {
    seq(|terms|, i requires 0 <= i < |terms| => Mentions(terms[i]))
  }

  function MethodClause(methods: seq<string>): Condition {
    MethodIn(seq(|methods|, i requires 0 <= i < |methods| => ToUpper(methods[i])))
  }

  /** The conditions in the order they are written. */
  function Clause(beforeID: nat, f: Filter): seq<Condition> {
    If(beforeID > 0, IdBelow(beforeID)) + If(!f.showOutScope, InScope) + If(f.host != "", HostIs(f.host))
    + If(f.host != "" && f.port != 0, PortIs(f.port)) + If(f.pathPrefix != "", UrlUnder(f.pathPrefix))
    + TermClause(Fields(ToLower(f.search))) + If(f.methods != [], MethodClause(f.methods))
    + If(f.statusMin > 0, StatusFrom(f.statusMin)) + If(f.statusMax > 0, StatusTo(f.statusMax))
  }

  /** How TransactionsPage grows the clause. */
  method BuildConditions(beforeID: nat, f: Filter) returns (cs: seq<Condition>)
    ensures cs == Clause(beforeID, f)
  {
    hide Fields, ToLower, TermClause, MethodClause, TermIn, PathLike, If;
    cs := [];
    if beforeID > 0 {
      cs := cs + [IdBelow(beforeID)];
    }
    Grown([], cs, beforeID > 0, IdBelow(beforeID));
    ghost var c1 := cs;
    if !f.showOutScope {
      cs := cs + [InScope];
    }
    Grown(c1, cs, !f.showOutScope, InScope);
    ghost var c2 := cs;
    if f.host != "" {
      cs := cs + [HostIs(f.host)];
      if f.port != 0 {
        cs := cs + [PortIs(f.port)];
      }
    }
    GrownTwice(c2, cs, f.host != "", HostIs(f.host), f.port != 0, PortIs(f.port));
    ghost var c3 := cs;
    if f.pathPrefix != "" {
      cs := cs + [UrlUnder(f.pathPrefix)];
    }
    Grown(c3, cs, f.pathPrefix != "", UrlUnder(f.pathPrefix));
    var terms := TermConditions(f.search);
    cs := cs + terms;
    ghost var c4 := cs;
    if |f.methods| > 0 {
      var c := MethodCondition(f.methods);
      cs := cs + [c];
    }
    Grown(c4, cs, f.methods != [], MethodClause(f.methods));
    ghost var c5 := cs;
    if f.statusMin > 0 {
      cs := cs + [StatusFrom(f.statusMin)];
    }
    Grown(c5, cs, f.statusMin > 0, StatusFrom(f.statusMin));
    ghost var c6 := cs;
    if f.statusMax > 0 {
      cs := cs + [StatusTo(f.statusMax)];
    }
    Grown(c6, cs, f.statusMax > 0, StatusTo(f.statusMax));
  }

  lemma Grown(before: seq<Condition>, cs: seq<Condition>, here: bool, c: Condition)
    requires cs == if here then before + [c] else before
    ensures cs == before + If(here, c)
    ensures before == [] ==> cs == If(here, c)
  {
    assert before + [] == before;
  }

  lemma GrownTwice(before: seq<Condition>, cs: seq<Condition>, here: bool, c: Condition, also: bool, d: Condition)
    requires cs == if here then (if also then before + [c] + [d] else before + [c]) else before
    ensures cs == before + If(here, c) + If(here && also, d)
  {
    var mid := if here then before + [c] else before;
    Grown(before, mid, here, c);
    Grown(mid, cs, here && also, d);
  }

  method TermConditions(search: string) returns (cs: seq<Condition>)
    ensures cs == TermClause(Fields(ToLower(search)))
  {
    hide Fields, ToLower;
    var terms := Fields(ToLower(search));
    cs := [];
    for i := 0 to |terms|
      invariant cs == seq(i, k requires 0 <= k < i => Mentions(terms[k]))
    {
      cs := cs + [Mentions(terms[i])];
    }
  }

  method MethodCondition(methods: seq<string>) returns (c: Condition)
    ensures c == MethodClause(methods)
  {
    hide ToUpper;
    var upper: seq<string> := [];
    for i := 0 to |methods|
      invariant upper == seq(i, k requires 0 <= k < i => ToUpper(methods[k]))
    {
      upper := upper + [ToUpper(methods[i])];
    }
    c := MethodIn(upper);
  }

  lemma HoldBoth(r: Row, a: seq<Condition>, b: seq<Condition>)
    ensures AllHold(r, a + b) <==> AllHold(r, a) && AllHold(r, b)
  {
    hide Holds;
    if AllHold(r, a + b) {
      assert forall i :: 0 <= i < |a| ==> a[i] == (a + b)[i];
      assert forall i :: 0 <= i < |b| ==> b[i] == (a + b)[|a| + i];
    }
  }

  lemma HoldIf(r: Row, here: bool, c: Condition)
    ensures AllHold(r, If(here, c)) <==> (here ==> Holds(r, c))
  {
    hide Holds;
    if here { assert If(here, c)[0] == c; }
  }

  lemma HoldTerms(r: Row, terms: seq<string>)
    ensures AllHold(r, TermClause(terms)) <==> forall i :: 0 <= i < |terms| ==> TermIn(r, terms[i])
  {
    hide TermIn;
    assert forall i :: 0 <= i < |terms| ==> TermClause(terms)[i] == Mentions(terms[i]);
    if AllHold(r, TermClause(terms)) {
      forall i | 0 <= i < |terms| ensures TermIn(r, terms[i]) { assert Holds(r, TermClause(terms)[i]); }
    }
  }

  lemma HoldMethods(r: Row, methods: seq<string>)
    ensures Holds(r, MethodClause(methods)) <==> exists i :: 0 <= i < |methods| && r.method_ == ToUpper(methods[i])
  {
    hide ToUpper;
    var upper := MethodClause(methods).methods;
    assert forall i :: 0 <= i < |methods| ==> upper[i] == ToUpper(methods[i]);
  }

  lemma HoldAll(r: Row, a1: seq<Condition>, a2: seq<Condition>, a3: seq<Condition>, a4: seq<Condition>,
    a5: seq<Condition>, a6: seq<Condition>, a7: seq<Condition>, a8: seq<Condition>, a9: seq<Condition>)
    ensures AllHold(r, a1 + a2 + a3 + a4 + a5 + a6 + a7 + a8 + a9) <==>
      && AllHold(r, a1) && AllHold(r, a2) && AllHold(r, a3) && AllHold(r, a4) && AllHold(r, a5)
      && AllHold(r, a6) && AllHold(r, a7) && AllHold(r, a8) && AllHold(r, a9)
  {
    hide AllHold;
    HoldBoth(r, a1, a2); HoldBoth(r, a1 + a2, a3); HoldBoth(r, a1 + a2 + a3, a4); HoldBoth(r, a1 + a2 + a3 + a4, a5);
    HoldBoth(r, a1 + a2 + a3 + a4 + a5, a6); HoldBoth(r, a1 + a2 + a3 + a4 + a5 + a6, a7);
    HoldBoth(r, a1 + a2 + a3 + a4 + a5 + a6 + a7, a8); HoldBoth(r, a1 + a2 + a3 + a4 + a5 + a6 + a7 + a8, a9);
  }

  /** The clause means what the filter asks for, and an id below the cursor if there is one. */
  lemma ClauseMeans(r: Row, beforeID: nat, f: Filter)
    ensures AllHold(r, Clause(beforeID, f)) <==> (beforeID > 0 ==> r.id < beforeID) && Meets(r, f)
  {
    hide AllHold, TermIn, PathLike, Fields, ToLower, ToUpper, TermClause, MethodClause, If;
    var a1 := If(beforeID > 0, IdBelow(beforeID));
    var a2 := If(!f.showOutScope, InScope);
    var a3 := If(f.host != "", HostIs(f.host));
    var a4 := If(f.host != "" && f.port != 0, PortIs(f.port));
    var a5 := If(f.pathPrefix != "", UrlUnder(f.pathPrefix));
    var a6 := TermClause(Fields(ToLower(f.search)));
    var a7 := If(f.methods != [], MethodClause(f.methods));
    var a8 := If(f.statusMin > 0, StatusFrom(f.statusMin));
    var a9 := If(f.statusMax > 0, StatusTo(f.statusMax));
    HoldAll(r, a1, a2, a3, a4, a5, a6, a7, a8, a9);
    HoldIf(r, beforeID > 0, IdBelow(beforeID));
    HoldIf(r, !f.showOutScope, InScope);
    HoldIf(r, f.host != "", HostIs(f.host));
    HoldIf(r, f.host != "" && f.port != 0, PortIs(f.port));
    HoldIf(r, f.pathPrefix != "", UrlUnder(f.pathPrefix));
    HoldTerms(r, Fields(ToLower(f.search)));
    HoldIf(r, f.methods != [], MethodClause(f.methods));
    HoldMethods(r, f.methods);
    HoldIf(r, f.statusMin > 0, StatusFrom(f.statusMin));
    HoldIf(r, f.statusMax > 0, StatusTo(f.statusMax));
  }

  // ---- the exact filter in memory ----

  const STATIC_EXTENSIONS: seq<string> := [
    ".js", ".css", ".png", ".jpg", ".jpeg", ".gif", ".ico", ".svg",
    ".woff", ".woff2", ".ttf", ".eot", ".map", ".webp", ".avif"]

  predicate IsStatic(url: string) {
    exists i :: 0 <= i < |STATIC_EXTENSIONS| && HasSuffix(ToLower(TreePathOf(url)), STATIC_EXTENSIONS[i])
  }

  /** What matchesFilter accepts. */
  predicate Exact(r: Row, f: Filter) {
    && (f.host != "" ==> r.host == f.host)
    && (f.port != 0 ==> r.port == f.port)
    && (f.pathPrefix != "" ==> Under(r.url, f.pathPrefix))
    && (f.showOutScope || r.inScope)
    && (f.methods != [] ==> exists i :: 0 <= i < |f.methods| && EqualFold(r.method_, f.methods[i]))
    && (f.statusMin > 0 ==> r.status >= f.statusMin)
    && (f.statusMax > 0 ==> r.status <= f.statusMax)
    && (f.hideStatic ==> !IsStatic(r.url))
  }

  predicate StaticExtension(e: string) {
    e in {".js", ".css", ".png", ".jpg", ".jpeg", ".gif", ".ico", ".svg", ".woff", ".woff2", ".ttf", ".eot", ".map",
          ".webp", ".avif"}
  }

  /** The lowered tree path ends with the extension of a static file. */
  ghost predicate EndsStatic(url: string) {
    exists e, stem :: ToLower(TreePathOf(url)) == stem + e && StaticExtension(e)
  }

  lemma StaticMeans(url: string)
    ensures IsStatic(url) <==> EndsStatic(url)
  {
    hide TreePathOf;
    var p := ToLower(TreePathOf(url));
    if i :| 0 <= i < |STATIC_EXTENSIONS| && HasSuffix(p, STATIC_EXTENSIONS[i]) {
      var e := STATIC_EXTENSIONS[i];
      assert p == p[..|p| - |e|] + e;
    }
    if e, stem :| p == stem + e && StaticExtension(e) {
      assert e in STATIC_EXTENSIONS;
      var i :| 0 <= i < |STATIC_EXTENSIONS| && STATIC_EXTENSIONS[i] == e;
      assert p[|p| - |e|..] == e;
      assert HasSuffix(p, STATIC_EXTENSIONS[i]);
    }
  }

  /** Hiding static files drops exactly those, whatever else the filter asks for. */
  lemma HideStaticDrops(r: Row, f: Filter)
    ensures Exact(r, f.(hideStatic := true)) <==> Exact(r, f.(hideStatic := false)) && !EndsStatic(r.url)
  {
    hide EndsStatic, IsStatic, Under, EqualFold;
    StaticMeans(r.url);
  }

  method MatchesFilter(r: Row, f: Filter) returns (ok: bool)
    ensures ok <==> Exact(r, f)
    ensures f.hideStatic ==> (ok <==> Exact(r, f.(hideStatic := false)) && !EndsStatic(r.url))
  {
    hide TreePathOf, ToLower, HasSuffix, EndsStatic;
    HideStaticDrops(r, f);
    if f.host != "" && r.host != f.host {
      return false;
    }
    if f.port != 0 && r.port != f.port {
      return false;
    }
    if f.pathPrefix != "" {
      var p := TreePathOf(r.url);
      if p != f.pathPrefix && !((f.pathPrefix + "/") <= p) {
        return false;
      }
    }
    if !f.showOutScope && !r.inScope {
      return false;
    }
    if |f.methods| > 0 {
      var found := false;
      for i := 0 to |f.methods|
        invariant found <==> exists k :: 0 <= k < i && EqualFold(r.method_, f.methods[k])
      {
        if EqualFold(r.method_, f.methods[i]) {
          found := true;
          break;
        }
      }
      if !found {
        return false;
      }
    }
    if f.statusMin > 0 && r.status < f.statusMin {
      return false;
    }
    if f.statusMax > 0 && r.status > f.statusMax {
      return false;
    }
    if f.hideStatic {
      var isStatic := StaticLoop(r.url);
      if isStatic {
        return false;
      }
    }
    return true;
  }

  method StaticLoop(url: string) returns (found: bool)
    ensures found <==> IsStatic(url)
  {
    hide TreePathOf, ToLower, HasSuffix;
    var p := ToLower(TreePathOf(url));
    for i := 0 to |STATIC_EXTENSIONS|
      invariant forall k :: 0 <= k < i ==> !HasSuffix(p, STATIC_EXTENSIONS[k])
    {
      if HasSuffix(p, STATIC_EXTENSIONS[i]) {
        return true;
      }
    }
    return false;
  }

  /** Every row the exact filter would keep is among those the query selects, if it meets the rest of the query. */
  lemma QuerySeesExact(r: Row, f: Filter)
    requires Exact(r, f) && MeetsRest(r, f)
    ensures Meets(r, f)
  {
    hide Under, PathLike, MeetsRest, EqualFold, IsStatic;
    if f.pathPrefix != "" {
      PreFilterLosesNothing(r.url, f.pathPrefix);
    }
  }
}
