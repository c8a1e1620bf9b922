/** What a prepared request looks like on the wire, and when preparing it again changes nothing.
    The framing statement is what sections 6.2 and 6.3 of RFC 9112 ask of a request with a known body. */
module RawFraming {
  import opened Strings
  import opened Words
  import opened Lists
  import opened RawRequest
  import HostPort

  // ---- the kinds of lines ----

  lemma Firsts(line: string, p: string)
    requires Begins(line, p) && |p| > 3
    ensures |line| > 3
    ensures LowerChar(line[0]) == p[0] && LowerChar(line[2]) == p[2] && LowerChar(line[3]) == p[3]
  {
    BeginsAt(line, p, 0);
    BeginsAt(line, p, 2);
    BeginsAt(line, p, 3);
  }

  /** No line begins with two of the names, so the order of the switch does not matter. */
  lemma KindBegins(line: string, k: Kind)
    requires k != Other
    ensures KindOf(line) == k <==> Begins(line, Prefix(k))
  {
    if Begins(line, Prefix(k)) {
      Firsts(line, Prefix(k));
      var q := KindOf(line);
      assert q != Other;
      Firsts(line, Prefix(q));
      DifferSoon(k, q);
    }
  }

  lemma DifferSoon(k: Kind, q: Kind)
    requires k != Other && q != Other
    requires Prefix(k)[0] == Prefix(q)[0] && Prefix(k)[2] == Prefix(q)[2] && Prefix(k)[3] == Prefix(q)[3]
    ensures k == q
  {
    match k
    case Cookie => assert Prefix(k)[0] == 'c' && Prefix(k)[2] == 'o';
    case AcceptEncoding => assert Prefix(k)[0] == 'a';
    case ContentLength => assert Prefix(k)[0] == 'c' && Prefix(k)[2] == 'n' && Prefix(k)[3] == 't';
    case TransferEncoding => assert Prefix(k)[0] == 't';
    case Connection => assert Prefix(k)[0] == 'c' && Prefix(k)[2] == 'n' && Prefix(k)[3] == 'n';
    case Host => assert Prefix(k)[0] == 'h';
  }

  lemma KindOfText(head: string, rest: string, k: Kind)
    requires k != Other && ToLower(head) == Prefix(k)
    ensures KindOf(head + rest) == k
  {
    var l := ToLower(head + rest);
    assert forall i :: 0 <= i < |head| ==> l[i] == ToLower(head)[i];
    assert l[..|head|] == Prefix(k);
    KindBegins(head + rest, k);
  }

  lemma CloseKind()
    ensures KindOf(CLOSE) == Connection
  {
    hide KindOf, Begins;
    assert ToLower("Connection:") == "connection:";
    KindOfText("Connection:", " close", Connection);
    assert CLOSE == "Connection:" + " close";
  }

  lemma HostKind(h: string)
    ensures KindOf("Host: " + h) == Host
  {
    hide KindOf, Begins;
    assert ToLower("Host:") == "host:";
    KindOfText("Host:", " " + h, Host);
    assert "Host: " + h == "Host:" + (" " + h);
  }

  lemma CookieKind(jar: seq<(string, string)>)
    ensures KindOf(CookieLine(jar)) == Cookie
  {
    hide KindOf, Begins, Join;
    assert ToLower("Cookie:") == "cookie:";
    var pairs := Join(seq(|jar|, i requires 0 <= i < |jar| => jar[i].0 + "=" + jar[i].1), "; ");
    KindOfText("Cookie:", " " + pairs, Cookie);
    assert CookieLine(jar) == "Cookie:" + (" " + pairs);
  }

  lemma LengthKind(body: string)
    ensures KindOf(LengthLine(body)) == ContentLength
  {
    hide KindOf, Begins, Dec;
    assert ToLower("Content-Length:") == "content-length:";
    KindOfText("Content-Length:", " " + Dec(|body|), ContentLength);
    assert LengthLine(body) == "Content-Length:" + (" " + Dec(|body|));
  }

  // ---- what rewriting does, kind by kind ----

  function HostLines(lines: seq<string>): seq<string> {
    if lines == [] then []
    else (if |lines[0]| >= 5 then [RewriteHost(lines[0])] else [lines[0]]) + HostLines(lines[1..])
  }

  function Closes(n: nat): seq<string> {
    seq(n, _ => CLOSE)
  }

  /** What is left of the lines of one kind. */
  function Kept(lines: seq<string>, jarEmpty: bool, k: Kind): seq<string> {
    match k
    case Other => Only(lines, Other)
    case Cookie => if jarEmpty then Only(lines, Cookie) else []
    case Host => HostLines(Only(lines, Host))
    case Connection => Closes(|Only(lines, Connection)|)
    case _ => []
  }

  lemma {:induction false} OnlyConcat(a: seq<string>, b: seq<string>, k: Kind)
    ensures Only(a + b, k) == Only(a, k) + Only(b, k)
  {
    hide KindOf;
    if a == [] {
      assert a + b == b;
    } else {
      OnlyConcat(a[1..], b, k);
      assert (a + b)[1..] == a[1..] + b;
      Regroup(Only([a[0]], k), Only(a[1..], k), Only(b, k));
      OnlyOne(a[0], k);
    }
  }

  lemma OnlyOne(line: string, k: Kind)
    ensures Only([line], k) == if KindOf(line) == k then [line] else []
  {
    assert Only([line][1..], k) == [];
  }

  lemma RewrittenHost(line: string)
    requires KindOf(line) == Host
    ensures |line| >= 5 && KindOf(RewriteHost(line)) == Host
  {
    hide HostPort.SplitHostPort, TrimSpace, KindOf, Begins;
    KindBegins(line, Host);
    BeginsAt(line, "host:", 4);
    if DefaultPort(HostOf(line)) {
      HostKind(HostOf(line).host);
    }
  }

  lemma OnlyNone(k: Kind)
    ensures Only([], k) == [] && HostLines([]) == []
  {
  }

  lemma HostOne(line: string)
    requires |line| >= 5
    ensures HostLines([line]) == [RewriteHost(line)]
  {
    hide RewriteHost;
    assert HostLines([line][1..]) == [];
  }

  lemma RewrittenLine(line: string, jarEmpty: bool, k: Kind)
    ensures Only(RewriteLine(line, jarEmpty), k) == Kept([line], jarEmpty, k)
  {
    hide KindOf, Begins, RewriteHost, Only, HostLines;
    var r := RewriteLine(line, jarEmpty);
    OnlyOne(line, Other);
    OnlyOne(line, k);
    OnlyNone(k);
    if KindOf(line) == Host {
      RewrittenHost(line);
      HostOne(line);
    }
    CloseKind();
    if r != [] {
      OnlyOne(r[0], k);
    }
  }

  lemma KeptConcat(a: seq<string>, b: seq<string>, jarEmpty: bool, k: Kind)
    ensures Kept(a + b, jarEmpty, k) == Kept(a, jarEmpty, k) + Kept(b, jarEmpty, k)
  {
    OnlyConcat(a, b, k);
    if k == Host {
      HostConcat(Only(a, Host), Only(b, Host));
    }
  }

  lemma {:induction false} HostConcat(a: seq<string>, b: seq<string>)
    ensures HostLines(a + b) == HostLines(a) + HostLines(b)
  {
    hide RewriteHost;
    if a == [] {
      assert a + b == b;
    } else {
      HostConcat(a[1..], b);
      assert (a + b)[1..] == a[1..] + b && (a + b)[0] == a[0];
      var first := if |a[0]| >= 5 then [RewriteHost(a[0])] else [a[0]];
      assert HostLines(a + b) == first + (HostLines(a[1..]) + HostLines(b));
    }
  }

  lemma {:induction false} RewrittenKinds(lines: seq<string>, jarEmpty: bool, k: Kind)
    ensures Only(RewriteLines(lines, jarEmpty), k) == Kept(lines, jarEmpty, k)
  {
    if lines != [] {
      hide RewriteLine, KindOf;
      assert lines == [lines[0]] + lines[1..];
      RewrittenLine(lines[0], jarEmpty, k);
      RewrittenKinds(lines[1..], jarEmpty, k);
      OnlyConcat(RewriteLine(lines[0], jarEmpty), RewriteLines(lines[1..], jarEmpty), k);
      KeptConcat([lines[0]], lines[1..], jarEmpty, k);
    }
  }

  /** The header lines of one kind in the prepared request. */
  function Sent(lines: seq<string>, jar: seq<(string, string)>, body: string, k: Kind): seq<string> {
    match k
    case Connection => if Only(lines, Connection) == [] then [CLOSE] else Closes(|Only(lines, Connection)|)
    case Cookie => if jar == [] then Only(lines, Cookie) else [CookieLine(jar)]
    case ContentLength => if body == "" then [] else [LengthLine(body)]
    case _ => Kept(lines, jar == [], k)
  }

  lemma OnlyIf(here: bool, line: string, k: Kind)
    ensures Only(If(here, line), k) == If(here && KindOf(line) == k, line)
  {
    OnlyOne(line, k);
    OnlyNone(k);
  }

  lemma HeadersParts(lines: seq<string>, jar: seq<(string, string)>, body: string, k: Kind)
    ensures Only(Headers(lines, jar, body), k) ==
      Kept(lines, jar == [], k) + If(k == Connection && Only(lines, Connection) == [], CLOSE)
      + If(k == Cookie && jar != [], CookieLine(jar)) + If(k == ContentLength && body != "", LengthLine(body))
  {
    hide RewriteLines, KindOf, Only, Kept, CookieLine, LengthLine;
    var r := RewriteLines(lines, jar == []);
    var c, j, l := If(Only(lines, Connection) == [], CLOSE), If(jar != [], CookieLine(jar)),
      If(body != "", LengthLine(body));
    assert Headers(lines, jar, body) == r + c + j + l;
    RewrittenKinds(lines, jar == [], k);
    OnlyConcat(r + c + j, l, k);
    OnlyConcat(r + c, j, k);
    OnlyConcat(r, c, k);
    OnlyIf(Only(lines, Connection) == [], CLOSE, k);
    OnlyIf(jar != [], CookieLine(jar), k);
    OnlyIf(body != "", LengthLine(body), k);
    CloseKind();
    CookieKind(jar);
    LengthKind(body);
  }

  lemma HeadersByKind(lines: seq<string>, jar: seq<(string, string)>, body: string, k: Kind)
    ensures Only(Headers(lines, jar, body), k) == Sent(lines, jar, body, k)
  {
    hide Headers, KindOf, Only, HostLines, CookieLine, LengthLine;
    HeadersParts(lines, jar, body, k);
    var kept := Kept(lines, jar == [], k);
    assert kept + [] == kept;
    assert [] + [CLOSE] == [CLOSE] && [] + [CookieLine(jar)] == [CookieLine(jar)]
      && [] + [LengthLine(body)] == [LengthLine(body)];
  }

  // ---- the header lines are fit to be written ----

  lemma {:induction false} RewriteKeepsFree(lines: seq<string>, jarEmpty: bool)
    requires Free(lines, '\n')
    ensures Free(RewriteLines(lines, jarEmpty), '\n')
    ensures (forall i :: 0 <= i < |lines| ==> lines[i] != "") ==>
      forall i :: 0 <= i < |RewriteLines(lines, jarEmpty)| ==> RewriteLines(lines, jarEmpty)[i] != ""
  {
    if lines != [] {
      RewriteKeepsFree(lines[1..], jarEmpty);
      RewriteLineFree(lines[0], jarEmpty);
      hide RewriteLine;
    }
  }

  lemma RewriteLineFree(line: string, jarEmpty: bool)
    requires '\n' !in line
    ensures Free(RewriteLine(line, jarEmpty), '\n')
    ensures line != "" ==> forall i :: 0 <= i < |RewriteLine(line, jarEmpty)| ==> RewriteLine(line, jarEmpty)[i] != ""
  {
    hide TrimSpace, HostPort.SplitHostPort, Begins;
    if KindOf(line) == Host {
      KindBegins(line, Host);
      BeginsAt(line, "host:", 4);
      var v := TrimSpace(line[5..]);
      if DefaultPort(HostOf(line)) {
        HostPort.SplitBare(v);
        assert forall c :: c in v ==> c in line[5..];
        assert '\n' !in HostOf(line).host;
      }
    }
  }

  predicate JarOk(jar: seq<(string, string)>) {
    forall i :: 0 <= i < |jar| ==> '\n' !in jar[i].0 && '\n' !in jar[i].1
  }

  lemma ExtrasFree(jar: seq<(string, string)>, body: string)
    requires JarOk(jar)
    ensures '\n' !in CLOSE && '\n' !in CookieLine(jar) && '\n' !in LengthLine(body)
  {
    var pairs := seq(|jar|, i requires 0 <= i < |jar| => jar[i].0 + "=" + jar[i].1);
    JoinFree(pairs, "; ", '\n');
    assert forall i :: 0 <= i < |Dec(|body|)| ==> Dec(|body|)[i] != '\n';
  }

  lemma AppendSplittable(a: seq<string>, here: bool, line: string)
    requires Splittable(a) && '\n' !in line && line != ""
    ensures Splittable(a + If(here, line))
  {
  }

  /** At most one line from the first, then lines that are not empty; nothing at all is not splittable. */
  lemma FrontSplittable(r0: seq<string>, r: seq<string>, here: bool)
    requires |r0| <= 1 && Free(r0, '\n') && Free(r, '\n') && (forall i :: 0 <= i < |r| ==> r[i] != "")
    requires r0 + r == [] ==> here
    ensures Splittable(r0 + r + If(here, CLOSE))
  {
    var s := r0 + r + If(here, CLOSE);
    forall i | 0 <= i < |s| ensures '\n' !in s[i] && (i > 0 ==> s[i] != "") {
      if |r0| <= i < |r0 + r| { assert s[i] == r[i - |r0|]; }
    }
  }

  lemma HeadersSplittable(lines: seq<string>, jar: seq<(string, string)>, body: string)
    requires Splittable(lines) && JarOk(jar)
    ensures Splittable(Headers(lines, jar, body))
  {
    hide RewriteLine, KindOf, Only, CookieLine, LengthLine;
    var r0, r := RewriteLine(lines[0], jar == []), RewriteLines(lines[1..], jar == []);
    RewriteKeepsFree(lines[1..], jar == []);
    RewriteLineFree(lines[0], jar == []);
    ExtrasFree(jar, body);
    assert RewriteLines(lines, jar == []) == r0 + r;
    if r0 + r == [] {
      RewrittenKinds(lines, jar == [], Connection);
      OnlyNone(Connection);
      assert |Only(lines, Connection)| == |Closes(|Only(lines, Connection)|)| == 0;
    }
    hide RewriteLines, Splittable;
    var here := Only(lines, Connection) == [];
    FrontSplittable(r0, r, here);
    ExtrasSome(jar, body);
    AppendSplittable(r0 + r + If(here, CLOSE), jar != [], CookieLine(jar));
    AppendSplittable(r0 + r + If(here, CLOSE) + If(jar != [], CookieLine(jar)), body != "", LengthLine(body));
  }

  lemma ExtrasSome(jar: seq<(string, string)>, body: string)
    ensures CookieLine(jar) != "" && LengthLine(body) != ""
  {
  }

  // ---- the prepared request ----

  /** The header lines that rewriteHeaders starts from. */
  function SourceLines(raw: string): seq<string> {
    WithRequestLine(NormLines(raw))
  }

  function OutLines(raw: string, jar: seq<(string, string)>): seq<string> {
    Headers(SourceLines(raw), jar, NormBody(raw))
  }

  lemma PrepareIs(raw: string, jar: seq<(string, string)>)
    ensures Prepare(raw, jar) == Message(OutLines(raw, jar), NormBody(raw))
    ensures Splittable(SourceLines(raw)) && (JarOk(jar) ==> Splittable(OutLines(raw, jar)))
  {
    hide Headers, Find, Fields;
    NormalisedIsMessage(raw);
    RequestLineOfMessage(NormLines(raw), NormBody(raw));
    MessageSplits(SourceLines(raw), NormBody(raw));
    HeaderEnd(SourceLines(raw), NormBody(raw));
    if JarOk(jar) {
      HeadersSplittable(SourceLines(raw), jar, NormBody(raw));
    }
  }

  /** A line by name: what a recipient looks for. */
  predicate Named(line: string, name: string) { Begins(line, name + ":") }

  lemma PreparedNames(raw: string, jar: seq<(string, string)>)
    ensures var lines, body := OutLines(raw, jar), NormBody(raw);
      && Only(lines, TransferEncoding) == [] && Only(lines, AcceptEncoding) == []
      && Only(lines, ContentLength) == (if body == "" then [] else [LengthLine(body)])
      && Number(Dec(|body|)) == |body|
  {
    hide Headers, KindOf, Only, SourceLines, NormBody, LengthLine, Number, Dec, CookieLine, HostLines;
    var body := NormBody(raw);
    HeadersByKind(SourceLines(raw), jar, body, TransferEncoding);
    HeadersByKind(SourceLines(raw), jar, body, AcceptEncoding);
    HeadersByKind(SourceLines(raw), jar, body, ContentLength);
    NumberOfDec(|body|);
  }

  /** For every raw text: the first empty line of the prepared request ends its header, the body behind it is
      the normalised text's body, no Transfer-Encoding or Accept-Encoding is left, and there is one
      Content-Length, the body's length in decimal, exactly when the body is not empty. */
  lemma PreparedIsFramed(raw: string, jar: seq<(string, string)>)
    requires JarOk(jar)
    ensures var out := Prepare(raw, jar);
      && Find(out, BLANK) >= 0 && SplitRaw(out).body == SplitRaw(NormalizeLineEndings(raw)).body
      && Split(SplitRaw(out).header, CRLF) == OutLines(raw, jar)
    ensures var lines, body := OutLines(raw, jar), SplitRaw(NormalizeLineEndings(raw)).body;
      && (forall i :: 0 <= i < |lines| ==> !Named(lines[i], "transfer-encoding") && !Named(lines[i], "accept-encoding"))
      && Only(lines, ContentLength) == (if body == "" then [] else ["Content-Length: " + Dec(|body|)])
      && Number(Dec(|body|)) == |body|
  {
    hide Headers, KindOf, Only, Begins, Splittable, Message, Prepare, OutLines, Number, Dec, Find, SplitRaw;
    PrepareIs(raw, jar);
    var lines := OutLines(raw, jar);
    MessageSplits(lines, NormBody(raw));
    PreparedNames(raw, jar);
    assert "transfer-encoding" + ":" == Prefix(TransferEncoding) && "accept-encoding" + ":" == Prefix(AcceptEncoding);
    forall i | 0 <= i < |lines|
      ensures !Named(lines[i], "transfer-encoding") && !Named(lines[i], "accept-encoding")
    {
      KindBegins(lines[i], TransferEncoding);
      KindBegins(lines[i], AcceptEncoding);
      NoneOf(lines, TransferEncoding, i);
      NoneOf(lines, AcceptEncoding, i);
    }
  }

  lemma {:induction false} NoneOf(lines: seq<string>, k: Kind, i: nat)
    requires Only(lines, k) == [] && i < |lines|
    ensures KindOf(lines[i]) != k
  {
    hide KindOf;
    if i > 0 {
      NoneOf(lines[1..], k, i - 1);
    }
  }

  /** The rest of the header: every other line is kept in its place among the others, host lines lose a
      default port, the connection is always closed, and cookies are the jar's or the request's own. */
  lemma PreparedKeepsTheRest(raw: string, jar: seq<(string, string)>)
    ensures var src, out := SourceLines(raw), OutLines(raw, jar);
      && Only(out, Other) == Only(src, Other) && Only(out, Host) == HostLines(Only(src, Host))
      && Only(out, Connection) != [] && (forall i :: 0 <= i < |Only(out, Connection)| ==>
        Only(out, Connection)[i] == CLOSE)
      && Only(out, Cookie) == (if jar == [] then Only(src, Cookie) else [CookieLine(jar)])
  {
    hide Headers, KindOf, Only, HostLines, CookieLine, SourceLines, NormBody, LengthLine;
    var src, body := SourceLines(raw), NormBody(raw);
    HeadersByKind(src, jar, body, Other);
    HeadersByKind(src, jar, body, Host);
    HeadersByKind(src, jar, body, Connection);
    HeadersByKind(src, jar, body, Cookie);
  }
}
