/** The path of a captured URL, and its segments. */
module UrlPath {
  import opened Strings

  function PathAfterScheme(rest: string): string {
    var slash := Find(rest, "/");
    if slash >= 0 then rest[slash..] else "/"
  }

  function PathOf(url: string): string {
    if "https://" <= url then PathAfterScheme(url[8..])
    else if "http://" <= url then PathAfterScheme(url[7..])
    else url
  }

  /** The path without its query. */
  function TreePathOf(url: string): string {
    var p := PathOf(url);
    var i := Find(p, "?");
    if i >= 0 then p[..i] else p
  }

  /** The path is the end of the URL; only a URL without any path is given one. */
  lemma PathInUrl(url: string) returns (before: string)
    ensures url == before + PathOf(url) || (PathOf(url) == "/" && exists a: string, b: string :: url == a + "//" + b)
  {
    hide Find;
    before := "";
    var n := if "https://" <= url then 8 else if "http://" <= url then 7 else 0;
    if n > 0 {
      var slash := Find(url[n..], "/");
      if slash >= 0 {
        before := url[..n + slash];
      } else {
        assert url == url[..n - 2] + "//" + url[n..];
      }
    }
  }

  /** The tree path is followed by the query, if there is one. */
  lemma TreePathInPath(url: string) returns (after: string)
    ensures PathOf(url) == TreePathOf(url) + after && (after == "" || after[0] == '?')
  {
    hide PathOf;
    var p := PathOf(url);
    var i := Find(p, "?");
    after := if i >= 0 then p[i..] else "";
    assert i >= 0 ==> p[i..i + 1] == "?" && p[i] == '?';
  }

  lemma TreePathInUrl(url: string) returns (before: string, after: string)
    ensures (url == before + TreePathOf(url) + after && (after == "" || after[0] == '?'))
            || (TreePathOf(url) == "/" && exists a: string, b: string :: url == a + "//" + b)
  {
    hide PathOf, TreePathOf;
    before := PathInUrl(url);
    after := TreePathInPath(url);
    if url == before + PathOf(url) {
      assert url == before + (TreePathOf(url) + after) == before + TreePathOf(url) + after;
    } else {
      var whole := TreePathOf(url) + after;
      assert whole == "/" && whole[|TreePathOf(url)|..] == after;
      assert after == "";
      assert TreePathOf(url) == TreePathOf(url) + after;
    }
  }

  predicate Scheme(s: string) { s == "https://" || s == "http://" }

  /** The tree path of a URL is what stands between its host and its query. */
  lemma TreePathOfUrl(scheme: string, host: string, path: string, query: string)
    requires Scheme(scheme) && '/' !in host && '?' !in path && path != "" && path[0] == '/'
    requires query == "" || query[0] == '?'
    ensures TreePathOf(scheme + (host + (path + query))) == path
  {
    hide Find, PathOf;
    SchemeOf(scheme, host + (path + query));
    FirstAt(host, '/', path[1..] + query);
    assert path + query == "/" + (path[1..] + query);
    var rest := host + (path + query);
    assert rest[|host|..] == path + query;
    QueryCut(path, query);
  }

  /** Without a scheme the URL is a path already. */
  lemma TreePathOfPath(path: string, query: string)
    requires '?' !in path && (query == "" || query[0] == '?')
    requires !("https://" <= path + query) && !("http://" <= path + query)
    ensures TreePathOf(path + query) == path
  {
    hide Find;
    QueryCut(path, query);
  }

  /** It is "/" when there is no slash behind the host. */
  lemma TreePathOfHost(scheme: string, rest: string)
    requires Scheme(scheme) && '/' !in rest
    ensures TreePathOf(scheme + rest) == "/"
  {
    hide Find, PathOf;
    SchemeOf(scheme, rest);
    NoneIn(rest, '/');
    NoneIn("/", '?');
  }

  lemma SchemeOf(scheme: string, rest: string)
    requires Scheme(scheme)
    ensures PathOf(scheme + rest) == PathAfterScheme(rest)
  {
    var url := scheme + rest;
    assert url[|scheme|..] == rest && url[4] == scheme[4];
    assert url[..|scheme|] == scheme;
  }

  lemma NoneIn(s: string, c: char)
    requires c !in s
    ensures Find(s, [c]) == -1
  {
    forall i: nat ensures !At(s, [c], i) {
      if i < |s| { assert s[i..i + 1] == [s[i]]; }
    }
    FindNone(s, [c]);
  }

  lemma FirstAt(a: string, c: char, b: string)
    requires c !in a
    ensures Find(a + ([c] + b), [c]) == |a|
  {
    CutAfterFreePart(a, [c], b);
    assert a + ([c] + b) == a + [c] + b;
  }

  lemma QueryCut(path: string, query: string)
    requires '?' !in path && (query == "" || query[0] == '?')
    ensures var p := path + query; var i := Find(p, "?"); (if i >= 0 then p[..i] else p) == path
  {
    if query == "" {
      assert path + query == path;
      NoneIn(path, '?');
    } else {
      assert query == "?" + query[1..];
      FirstAt(path, '?', query[1..]);
    }
  }

  /** splitPath: the non-empty segments. */
  function NonEmpty(parts: seq<string>): (r: seq<string>)
    ensures forall i :: 0 <= i < |r| ==> r[i] != "" && r[i] in parts
  {
    if parts == [] then [] else (if parts[0] != "" then [parts[0]] else []) + NonEmpty(parts[1..])
  }

  function SplitPath(path: string): seq<string> {
    NonEmpty(Split(path, "/"))
  }

  method SplitPathLoop(path: string) returns (segs: seq<string>)
    ensures segs == SplitPath(path)
  {
    hide Split;
    segs := [];
    var parts := Split(path, "/");
    assert parts[0..] == parts;
    for i := 0 to |parts|
      invariant segs + NonEmpty(parts[i..]) == NonEmpty(parts)
    {
      assert parts[i..][1..] == parts[i + 1..];
      if parts[i] != "" {
        assert segs + ([parts[i]] + NonEmpty(parts[i + 1..])) == (segs + [parts[i]]) + NonEmpty(parts[i + 1..]);
        segs := segs + [parts[i]];
      }
    }
  }

  predicate Segment(s: string) { s != "" && '/' !in s }

  ghost predicate Segments(segs: seq<string>) { forall i :: 0 <= i < |segs| ==> Segment(segs[i]) }

  lemma SplitPathSegments(path: string)
    ensures Segments(SplitPath(path))
  {
    SplitFree(path, "/");
  }

  /** The path a list of segments is written as: a slash before each. */
  function PathText(segs: seq<string>): string {
    if segs == [] then "" else "/" + segs[0] + PathText(segs[1..])
  }

  lemma {:induction false} PathTextIsJoin(segs: seq<string>)
    ensures PathText(segs) == Join([""] + segs, "/")
  {
    if segs != [] {
      PathTextIsJoin(segs[1..]);
      assert ([""] + segs)[1..] == segs;
      if |segs| > 1 {
        assert ([""] + segs[1..])[1..] == segs[1..];
        assert "" + "/" + (segs[0] + "/" + Join(segs[1..], "/")) == "/" + segs[0] + ("" + "/" + Join(segs[1..], "/"));
      } else {
        assert Join([""], "/") == "" && Join(segs, "/") == segs[0];
      }
    }
  }

  /** Splitting a written path gives its segments back. */
  lemma SplitPathText(segs: seq<string>)
    requires Segments(segs)
    ensures SplitPath(PathText(segs)) == segs
  {
    hide Split, Join, Find;
    var parts := [""] + segs;
    PathTextIsJoin(segs);
    assert Free(parts, '/');
    Strings.SplitJoin(parts, "/");
    assert parts[1..] == segs && parts[0] == "";
    AllNonEmpty(segs);
    assert NonEmpty(parts) == [] + NonEmpty(segs);
  }

  lemma {:induction false} AllNonEmpty(segs: seq<string>)
    requires forall i :: 0 <= i < |segs| ==> segs[i] != ""
    ensures NonEmpty(segs) == segs
  {
    if segs != [] {
      AllNonEmpty(segs[1..]);
    }
  }

  lemma {:induction false} PathTextMore(segs: seq<string>, seg: string)
    ensures PathText(segs + [seg]) == PathText(segs) + "/" + seg
  {
    if segs == [] {
      assert [seg][1..] == [];
      assert PathText([seg]) == "/" + seg + "";
    } else {
      PathTextMore(segs[1..], seg);
      assert (segs + [seg])[1..] == segs[1..] + [seg];
      assert "/" + segs[0] + (PathText(segs[1..]) + "/" + seg) == "/" + segs[0] + PathText(segs[1..]) + "/" + seg;
    }
  }
}
