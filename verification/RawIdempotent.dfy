/** Preparing a prepared request again, with the same jar in the same order: it changes nothing exactly when no
    host line is a bracketed host that has itself a default port. */
module RawIdempotent {
  import opened Strings
  import opened Words
  import opened Lists
  import opened RawRequest
  import opened RawFraming
  import HostPort

  /** After the brackets and the default port of a host line are gone, another default port shows. */
  predicate Nested(line: string)
    requires |line| >= 5
  {
    DefaultPort(HostOf(line)) && DefaultPort(HostPort.SplitHostPort(TrimSpace(HostOf(line).host)))
  }

  predicate Settled(line: string) {
    KindOf(line) == Host ==> |line| >= 5 && !Nested(line)
  }

  /** Only a bracketed host can be nested: without brackets no colon is left. */
  lemma NestedIsBracketed(line: string)
    requires |line| >= 5 && Nested(line)
    ensures var v := TrimSpace(line[5..]); v != "" && v[0] == '[' && ':' in HostOf(line).host
  {
    var v, h := TrimSpace(line[5..]), HostOf(line).host;
    HostPort.SplitBare(v);
    assert ':' in TrimSpace(h);
  }

  lemma HostTwice(line: string)
    requires KindOf(line) == Host
    ensures |line| >= 5 && |RewriteHost(line)| >= 5 && KindOf(RewriteHost(line)) == Host
    ensures RewriteHost(RewriteHost(line)) == RewriteHost(line) <==> !Nested(line)
  {
    hide KindOf, TrimSpace, HostPort.SplitHostPort;
    RewrittenHost(line);
    if DefaultPort(HostOf(line)) {
      var h, l := HostOf(line).host, RewriteHost(line);
      assert l[5..] == " " + h;
      LeadingBlank(h);
      if DefaultPort(HostOf(l)) {
        HostPort.SplitBare(TrimSpace(h));
        assert |RewriteHost(l)| < |l|;
      }
    }
  }

  lemma LineTwice(line: string, e: bool)
    ensures |RewriteLines(RewriteLine(line, e), e)| == |RewriteLine(line, e)|
    ensures RewriteLines(RewriteLine(line, e), e) == RewriteLine(line, e) <==> Settled(line)
  {
    hide KindOf, RewriteHost, Nested;
    var r := RewriteLine(line, e);
    CloseKind();
    if KindOf(line) == Host {
      HostTwice(line);
    }
    if r != [] {
      assert r == [r[0]] && r[1..] == [];
      assert RewriteLines(r, e) == RewriteLine(r[0], e) + [];
    }
  }

  lemma {:induction false} RewriteConcat(a: seq<string>, b: seq<string>, e: bool)
    ensures RewriteLines(a + b, e) == RewriteLines(a, e) + RewriteLines(b, e)
  {
    hide RewriteLine;
    if a == [] {
      assert a + b == b;
    } else {
      RewriteConcat(a[1..], b, e);
      assert (a + b)[1..] == a[1..] + b;
      Regroup(RewriteLine(a[0], e), RewriteLines(a[1..], e), RewriteLines(b, e));
    }
  }

  lemma SplitEqual(a: seq<string>, b: seq<string>, c: seq<string>, d: seq<string>)
    requires |a| == |c|
    ensures a + b == c + d <==> a == c && b == d
  {
    if a + b == c + d {
      assert a == (a + b)[..|a|] && b == (a + b)[|a|..];
      assert c == (c + d)[..|c|] && d == (c + d)[|c|..];
    }
  }

  lemma {:induction false} LinesTwice(lines: seq<string>, e: bool)
    ensures |RewriteLines(RewriteLines(lines, e), e)| == |RewriteLines(lines, e)|
    ensures RewriteLines(RewriteLines(lines, e), e) == RewriteLines(lines, e) <==>
            forall i :: 0 <= i < |lines| ==> Settled(lines[i])
  {
    hide RewriteLine, Settled;
    if lines != [] {
      var r, rs := RewriteLine(lines[0], e), RewriteLines(lines[1..], e);
      LineTwice(lines[0], e);
      LinesTwice(lines[1..], e);
      RewriteConcat(r, rs, e);
      SplitEqual(RewriteLines(r, e), RewriteLines(rs, e), r, rs);
      assert (forall i :: 0 <= i < |lines| ==> Settled(lines[i])) <==>
             Settled(lines[0]) && forall i :: 0 <= i < |lines[1..]| ==> Settled(lines[1..][i]) by {
        assert forall i :: 0 < i < |lines| ==> lines[i] == lines[1..][i - 1];
      }
    }
  }

  lemma LineAlone(line: string, e: bool)
    ensures RewriteLines([line], e) == RewriteLine(line, e)
  {
    hide RewriteLine;
    assert [line][1..] == [] && RewriteLines([], e) == [];
  }

  /** What the first preparation appended: the Connection line stays, cookies and length go, to come again. */
  lemma ExtrasTwice(here: bool, jar: seq<(string, string)>, body: string)
    ensures RewriteLines(If(here, CLOSE), jar == []) == If(here, CLOSE)
    ensures RewriteLines(If(jar != [], CookieLine(jar)), jar == []) == []
    ensures RewriteLines(If(body != "", LengthLine(body)), jar == []) == []
  {
    hide KindOf, LengthLine, CookieLine;
    CloseKind();
    LengthKind(body);
    CookieKind(jar);
    LineAlone(CLOSE, jar == []);
    LineAlone(LengthLine(body), jar == []);
    LineAlone(CookieLine(jar), jar == []);
    assert RewriteLines([], jar == []) == [];
  }

  lemma RewriteFour(a: seq<string>, b: seq<string>, c: seq<string>, d: seq<string>, e: bool)
    ensures RewriteLines(a + b + c + d, e)
      == RewriteLines(a, e) + RewriteLines(b, e) + RewriteLines(c, e) + RewriteLines(d, e)
  {
    hide RewriteLines;
    RewriteConcat(a + b + c, d, e);
    RewriteConcat(a + b, c, e);
    RewriteConcat(a, b, e);
  }

  /** The header rewritten twice. */
  lemma HeadersTwice(lines: seq<string>, jar: seq<(string, string)>, body: string)
    ensures Headers(Headers(lines, jar, body), jar, body) == Headers(lines, jar, body) <==>
            forall i :: 0 <= i < |lines| ==> Settled(lines[i])
  {
    hide KindOf, RewriteLines, Only, LengthLine, CookieLine, Settled;
    var e, here := jar == [], Only(lines, Connection) == [];
    var r, c, j, l := RewriteLines(lines, e), If(here, CLOSE), If(!e, CookieLine(jar)),
      If(body != "", LengthLine(body));
    var h := Headers(lines, jar, body);
    assert h == r + c + j + l;
    LinesTwice(lines, e);
    RewriteFour(r, c, j, l, e);
    ExtrasTwice(here, jar, body);
    assert RewriteLines(h, e) == RewriteLines(r, e) + c;
    HeadersByKind(lines, jar, body, Connection);
    assert Only(h, Connection) != [];
    assert Headers(h, jar, body) == (RewriteLines(r, e) + c) + j + l;
    SameTail(RewriteLines(r, e), r, c, j, l);
  }

  lemma SameTail(a: seq<string>, b: seq<string>, c: seq<string>, d: seq<string>, e: seq<string>)
    requires |a| == |b|
    ensures a + c + d + e == b + c + d + e <==> a == b
  {
    assert a + c + d + e == a + (c + d + e) && b + c + d + e == b + (c + d + e);
    SplitEqual(a, c + d + e, b, c + d + e);
  }

  /** A request line whose method has no colon is none of the headers that rewriteHeaders looks for. */
  lemma RequestLineIsOther(first: string)
    requires |Fields(first)| >= 2 && ':' !in Fields(first)[0]
    ensures KindOf(NewRequestLine(first)) == Other
  {
    hide Fields, KindOf, Begins;
    var m, line, k := Fields(first)[0], NewRequestLine(first), KindOf(NewRequestLine(first));
    if k != Other {
      var p := Prefix(k);
      KindBegins(line, k);
      assert line[|m|] == ' ' && forall i :: 0 <= i < |m| ==> line[i] == m[i] && m[i] != ':';
      BeginsAt(line, p, |p| - 1);
      if |m| < |p| {
        BeginsAt(line, p, |m|);
        NoBlankInName(k, |m|);
      }
    }
  }

  lemma NoBlankInName(k: Kind, i: nat)
    requires i < |Prefix(k)|
    ensures Prefix(k)[i] != ' '
  {
  }

  lemma FirstLineKept(lines: seq<string>, jar: seq<(string, string)>, body: string)
    requires lines != [] && KindOf(lines[0]) == Other
    ensures Headers(lines, jar, body) != [] && Headers(lines, jar, body)[0] == lines[0]
  {
    assert RewriteLines(lines, jar == [])[0] == lines[0];
  }

  /** With a first line that is no header: preparing twice is preparing once exactly when every host line is
      settled. */
  lemma PrepareIdempotentIff(raw: string, jar: seq<(string, string)>)
    requires JarOk(jar) && KindOf(SourceLines(raw)[0]) == Other
    ensures Prepare(Prepare(raw, jar), jar) == Prepare(raw, jar) <==>
            forall i :: 0 <= i < |SourceLines(raw)| ==> Settled(SourceLines(raw)[i])
  {
    hide Find, Headers, KindOf, Settled, Splittable, SplitRaw, Message, NormLines, NormBody, JarOk;
    var src, body, h := SourceLines(raw), NormBody(raw), OutLines(raw, jar);
    PrepareIs(raw, jar);
    var out := Prepare(raw, jar);
    SameSource(raw, jar);
    PrepareIs(out, jar);
    MessageInjective(OutLines(out, jar), h, body);
    HeadersTwice(src, jar, body);
  }

  /** The prepared request is its own normal form, request line included. */
  lemma SameSource(raw: string, jar: seq<(string, string)>)
    requires JarOk(jar) && KindOf(SourceLines(raw)[0]) == Other
    ensures SourceLines(Prepare(raw, jar)) == OutLines(raw, jar) && NormBody(Prepare(raw, jar)) == NormBody(raw)
  {
    hide Find, Headers, KindOf, Fields, NewRequestLine, Splittable, JarOk;
    var body, h := NormBody(raw), OutLines(raw, jar);
    PrepareIs(raw, jar);
    NormaliseMessage(h, body);
    MessageSplits(h, body);
    FirstLineKept(SourceLines(raw), jar, body);
    assert NormLines(Prepare(raw, jar)) == h;
    NewRequestLineIdempotent(NormLines(raw)[0]);
    assert WithRequestLine(h) == h;
  }

  const NESTED := "Host: [a:80]:80"

  /** A host line that is not settled: twice in brackets' place, two default ports go. */
  lemma NestedLine()
    ensures KindOf(NESTED) == Host && Nested(NESTED)
    ensures RewriteHost(NESTED) == "Host: a:80" && RewriteHost("Host: a:80") == "Host: a"
  {
    hide KindOf, Begins, HostPort.SplitHostPort, TrimSpace;
    HostKind("[a:80]:80");
    assert NESTED == "Host: " + "[a:80]:80";
    TrimBlank("[a:80]:80");
    TrimBlank("a:80");
    HostPort.BareSplits("a", "80");
    HostPort.BracketedSplits("a:80", "80");
    assert NESTED[5..] == " " + "[a:80]:80" && "Host: a:80"[5..] == " " + "a:80";
    assert "a" + ":" + "80" == "a:80" && "[" + "a:80" + "]:" + "80" == "[a:80]:80";
  }

  /** A request that preparing twice changes twice, whatever the jar and the body. */
  lemma NestedExample(jar: seq<(string, string)>, body: string) returns (raw: string)
    requires JarOk(jar)
    ensures raw == "GET / HTTP/1.1" + CRLF + "Host: [a:80]:80" + BLANK + body
    ensures Prepare(Prepare(raw, jar), jar) != Prepare(raw, jar)
  {
    hide KindOf, NewRequestLine, Nested, JarOk, Prepare, NormLines, NormBody, Message;
    var first, lines := "GET / HTTP/1.1", ["GET / HTTP/1.1", NESTED];
    raw := Message(lines, body);
    TwoLineMessage(first, NESTED, body);
    assert Splittable(lines);
    LinesOfMessage(lines, body);
    FirstOfExample();
    assert SourceLines(raw) == [NewRequestLine(first), NESTED];
    NestedLine();
    assert !Settled(SourceLines(raw)[1]);
    PrepareIdempotentIff(raw, jar);
  }

  lemma TwoLineMessage(a: string, b: string, body: string)
    ensures Message([a, b], body) == a + CRLF + b + BLANK + body
  {
    assert [a, b][1..] == [b] && Join([b], CRLF) == b;
  }

  lemma FirstOfExample()
    ensures KindOf(NewRequestLine("GET / HTTP/1.1")) == Other
  {
    hide KindOf, Fields;
    assert NoSpace("GET") && NoSpace("/") && NoSpace("HTTP/1.1");
    ThreeFields("GET", "/", "HTTP/1.1");
    assert "GET / HTTP/1.1" == "GET" + " " + "/" + " " + "HTTP/1.1";
    RequestLineIsOther("GET / HTTP/1.1");
  }

  lemma TrimBlank(s: string)
    requires s != "" && !IsSpace(s[0]) && !IsSpace(s[|s| - 1])
    ensures TrimSpace(s) == s && TrimSpace(" " + s) == s
  {
    LeadingBlank(s);
  }
}
