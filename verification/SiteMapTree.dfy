/** The tree the widget can reach is exactly the set of prefixes of what was added. */
module SiteMapTree {
  import opened UrlPath
  import opened NodeId
  import opened Wrappers
  import opened SM = SiteMap
  import HostPort
  import Strings
  import opened Words

  /** Everything a list of transactions puts into the map. */
  function AllPlaces(txs: seq<Transaction>): set<Place> {
    if txs == [] then {} else PlacesOf(txs[0]) + AllPlaces(txs[1..])
  }

  /** The places of a transaction: its host, and every prefix of the segments of its URL, query left aside. */
  lemma PlacesOfUrl(host: string, port: nat, scheme: string, authority: string, segs: seq<string>, query: string)
    requires Scheme(scheme) && '/' !in authority && Segments(segs) && segs != [] && '?' !in PathText(segs)
    requires query == "" || query[0] == '?'
    ensures var tx := Transaction(host, port, scheme + (authority + (PathText(segs) + query)));
      PlacesOf(tx) == set i: nat | i <= |segs| :: Place(HostPortKey(host, port), segs[..i])
  {
    hide SplitPath, TreePathOf, HostPortKey;
    assert PathText(segs)[0] == '/';
    TreePathOfUrl(scheme, authority, PathText(segs), query);
    SplitPathText(segs);
  }

  method AddAll(sm: SM.SiteMap, txs: seq<Transaction>)
    requires sm.Valid()
    modifies sm, sm.at.Values
    ensures sm.Valid() && sm.Places() == old(sm.Places()) + AllPlaces(txs)
  {
    hide PlacesOf;
    assert txs[0..] == txs;
    for i := 0 to |txs|
      invariant sm.Valid() && fresh(sm.at.Values - old(sm.at.Values))
      invariant sm.Places() + AllPlaces(txs[i..]) == old(sm.Places()) + AllPlaces(txs)
    {
      assert txs[i..][1..] == txs[i + 1..];
      sm.Add(txs[i]);
    }
  }

  /** Order and repetition do not matter: a place is there when some transaction has it as a prefix. */
  lemma {:induction false} PlacesAreUnion(txs: seq<Transaction>, p: Place)
    ensures p in AllPlaces(txs) <==> exists i :: 0 <= i < |txs| && p in PlacesOf(txs[i])
  {
    hide PlacesOf;
    if txs != [] {
      PlacesAreUnion(txs[1..], p);
      if i :| 0 <= i < |txs| && p in PlacesOf(txs[i]) {
        assert i > 0 ==> txs[1..][i - 1] == txs[i];
      }
      if i :| 0 <= i < |txs[1..]| && p in PlacesOf(txs[1..][i]) {
        assert txs[i + 1] == txs[1..][i];
      }
    }
  }

  lemma SameTransactionsSameMap(a: seq<Transaction>, b: seq<Transaction>)
    requires forall tx :: tx in a <==> tx in b
    ensures AllPlaces(a) == AllPlaces(b)
  {
    hide PlacesOf, AllPlaces;
    forall p ensures p in AllPlaces(a) <==> p in AllPlaces(b) {
      PlacesAreUnion(a, p);
      PlacesAreUnion(b, p);
      if i :| 0 <= i < |a| && p in PlacesOf(a[i]) {
        assert a[i] in b;
        var j :| 0 <= j < |b| && b[j] == a[i];
      }
      if i :| 0 <= i < |b| && p in PlacesOf(b[i]) {
        assert b[i] in a;
        var j :| 0 <= j < |a| && a[j] == b[i];
      }
    }
  }

  // ---- ids of places ----

  function IdOf(p: Place): string {
    if p.segs == [] then "h:" + p.key else "p:" + p.key + "|" + PathText(p.segs)
  }

  /** parseNodeID takes the id of a place back to the place if and only if the host has no brackets and, unless the
      place is the host itself, no bar. */
  lemma IdRoundTripIff(host: string, port: nat, segs: seq<string>)
    requires Segments(segs)
    ensures var p := Place(HostPortKey(host, port), segs);
      var n := ParseNodeId(IdOf(p));
      && n.Node?
      && (NodePlace(n) == p <==> HostPort.NoBrackets(host) && (segs == [] || '|' !in host))
  {
    hide HostPortKey, ParseNodeId, ParseKey, SplitPath, HostPort.NoBrackets;
    var key := HostPortKey(host, port);
    SplitPathText(segs);
    if segs == [] {
      HostIdParsed(key);
      KeyOfParsedIff(host, port, "");
    } else if '|' in host {
      assert IdOf(Place(key, segs)) == PathId(host, port, PathText(segs));
      BarParsesElsewhere(host, port, PathText(segs));
    } else {
      PathIdParsed(host, port, PathText(segs));
      KeyOfParsedIff(host, port, PathText(segs));
    }
  }

  lemma HostIdParsed(key: string)
    ensures ParseNodeId("h:" + key) == ParseKey(key, "")
  {
    hide ParseKey;
    assert ("h:" + key)[2..] == key;
  }

  lemma PathIdParsed(host: string, port: nat, path: string)
    requires '|' !in host
    ensures ParseNodeId("p:" + HostPortKey(host, port) + "|" + path) == ParseKey(HostPortKey(host, port), path)
  {
    hide ParseKey, HostPortKey;
    var key := HostPortKey(host, port);
    BarInKey(host, port);
    var uid := "p:" + key + "|" + path;
    assert uid[2..] == key + "|" + path && uid[0] == 'p' && "h:"[0] == 'h' && uid[..2] == "p:";
    Strings.CutAfterFreePart(key, "|", path);
    assert uid[2..][..|key|] == key && uid[2..][|key| + 1..] == path;
  }

  /** Slashes one at a time, the first in front: a path that splits into what it is written with. */
  predicate Rooted(t: string) {
    t != "" && t[0] == '/' && forall i :: 0 < i < |t| ==> t[i - 1] != '/' || t[i] != '/'
  }

  /** The longer key goes on after the shorter one with a bar and the start of a path. */
  predicate Clash(k: string, l: string) {
    |k| < |l| && l[..|k| + 1] == k + "|" && Rooted(l[|k| + 1..])
  }

  /** Two places, under these keys, with one id. */
  ghost predicate OneIdTwice(k: string, l: string, p: Place, q: Place) {
    p.key == k && q.key == l && Segments(p.segs) && Segments(q.segs) && p != q && IdOf(p) == IdOf(q)
  }

  /** Under which keys two places can have one id, for every two keys. */
  lemma SameIdIff(k: string, l: string)
    ensures (exists p, q :: OneIdTwice(k, l, p, q)) <==> Clash(k, l) || Clash(l, k)
  {
    hide IdOf, Clash, Segment;
    if p, q :| OneIdTwice(k, l, p, q) {
      SameIdClashes(p, q);
    }
    if Clash(k, l) {
      var p, q := ClashHasOneId(k, l);
    }
    if Clash(l, k) {
      var q, p := ClashHasOneId(l, k);
      assert OneIdTwice(k, l, p, q);
    }
  }

  lemma IdStart(p: Place)
    ensures IdOf(p) != "" && IdOf(p)[0] == if p.segs == [] then 'h' else 'p'
    ensures IdOf(p)[2..] == if p.segs == [] then p.key else p.key + "|" + PathText(p.segs)
  {
  }

  lemma SameIdClashes(p: Place, q: Place)
    requires Segments(p.segs) && Segments(q.segs) && p != q && IdOf(p) == IdOf(q)
    ensures Clash(p.key, q.key) || Clash(q.key, p.key)
  {
    hide IdOf, Clash, Segment, PathText, SplitPath;
    IdStart(p);
    IdStart(q);
    SplitPathText(p.segs);
    SplitPathText(q.segs);
    if p.segs != [] {
      PathTextRooted(p.segs);
      PathTextRooted(q.segs);
      if |p.key| <= |q.key| {
        LongerKey(p.key, PathText(p.segs), q.key, PathText(q.segs));
      } else {
        LongerKey(q.key, PathText(q.segs), p.key, PathText(p.segs));
      }
    }
  }

  lemma LongerKey(k: string, a: string, l: string, b: string)
    requires k + "|" + a == l + "|" + b && Rooted(a) && |k| <= |l|
    ensures (k == l && a == b) || Clash(k, l)
  {
    var s := k + "|" + a;
    assert k == s[..|k|] && l == s[..|l|] && s[|k|] == '|' && a == s[|k| + 1..] && b == s[|l| + 1..];
    if |k| < |l| {
      var r := l[|k| + 1..];
      assert l == k + "|" + r;
      assert a == r + "|" + b;
      assert r != "" by { assert a[0] == '/'; }
      forall i | 0 <= i < |r| ensures r[i] == a[i] {}
    }
  }

  lemma {:induction false} PathTextRooted(segs: seq<string>)
    requires Segments(segs) && segs != []
    ensures Rooted(PathText(segs)) && PathText(segs)[|PathText(segs)| - 1] != '/'
  {
    var seg, rest := segs[0], PathText(segs[1..]);
    assert Segment(seg);
    if |segs| > 1 {
      PathTextRooted(segs[1..]);
    }
    var t := "/" + seg + rest;
    forall i | 0 < i < |t| ensures t[i - 1] != '/' || t[i] != '/' {
      if 0 < i <= |seg| {
        assert t[i] == seg[i - 1];
      } else if i == |seg| + 1 {
        assert t[i - 1] == seg[|seg| - 1];
      } else {
        assert t[i - 1] == rest[i - |seg| - 2] && t[i] == rest[i - |seg| - 1];
      }
    }
  }

  /** Such a path has segments. */
  lemma {:induction false} RootedText(t: string) returns (segs: seq<string>)
    requires Rooted(t) && t[|t| - 1] != '/'
    ensures segs != [] && Segments(segs) && PathText(segs) == t
    decreases |t|
  {
    hide PathText;
    var i := Strings.Find(t[1..], "/");
    if i < 0 {
      var seg := t[1..];
      forall j | 0 <= j < |seg| ensures seg[j] != '/' {
        assert !Strings.At(seg, "/", j) && seg[j..j + 1] == [seg[j]];
      }
      segs := [seg];
      OneSegment(seg);
    } else {
      var seg, rest := t[1..][..i], t[1 + i..];
      assert t[1..][i..i + 1] == "/";
      forall j: nat | j < i ensures seg[j] != '/' {
        assert !Strings.At(t[1..], "/", j) && t[1..][j..j + 1] == [seg[j]];
      }
      assert rest[0] == '/';
      var more := RootedText(rest);
      segs := [seg] + more;
      PathTextOf(seg, more);
      assert t == "/" + seg + rest;
    }
  }

  lemma ClashHasOneId(k: string, l: string) returns (p: Place, q: Place)
    requires Clash(k, l)
    ensures OneIdTwice(k, l, p, q)
  {
    hide PathText;
    var r := l[|k| + 1..];
    var t := r + "|/a";
    OneSegment("a");
    var segs := RootedText(t);
    p, q := Place(k, segs), Place(l, ["a"]);
    assert l == k + "|" + r;
    assert "p:" + k + "|" + t == "p:" + l + "|" + "/a";
  }

  /** So different places have different ids, brackets or not, as long as no host has a bar. */
  lemma IdInjective(p: Place, q: Place)
    requires '|' !in p.key && '|' !in q.key && Segments(p.segs) && Segments(q.segs) && IdOf(p) == IdOf(q)
    ensures p == q
  {
    hide IdOf, Clash;
    if p != q {
      SameIdClashes(p, q);
      if Clash(p.key, q.key) { ClashHasBar(p.key, q.key); } else { ClashHasBar(q.key, p.key); }
    }
  }

  lemma ClashHasBar(k: string, l: string)
    requires Clash(k, l)
    ensures '|' in l
  {
    assert l[|k|] == l[..|k| + 1][|k|] == '|';
  }

  lemma BracketedKey(host: string, port: nat)
    requires ':' in host && port < 10
    ensures HostPortKey(host, port) == "[" + host + "]:" + [Digit(port)]
  {
  }

  /** With a bar they need not have: two hosts, two paths, one id. */
  lemma SameIdExample()
    ensures var p, q := Place(HostPortKey("x:y", 1), ["z]:2|", "a"]), Place(HostPortKey("x:y]:1|/z", 2), ["a"]);
      Segments(p.segs) && Segments(q.segs) && p != q && IdOf(p) == IdOf(q)
  {
    hide HostPortKey, PathText;
    var a, b, x, y := "x:y", "x:y]:1|/z", "z]:2|", "a";
    assert a[1] == ':' && b[1] == ':';
    BracketedKey(a, 1);
    BracketedKey(b, 2);
    assert b == a + "]:1|/z" && x == "z" + "]:2|";
    TwoSegments(x, y);
    OneSegment(y);
    var p, q := Place(HostPortKey(a, 1), [x, y]), Place(HostPortKey(b, 2), [y]);
    assert |p.segs| != |q.segs|;
    SameText(a, y);
  }

  lemma SameText(a: string, y: string)
    ensures var b, x := a + "]:1|/z", "z]:2|";
      "p:" + ("[" + a + "]:" + ['1']) + "|" + ("/" + x + ("/" + y)) == "p:" + ("[" + b + "]:" + ['2']) + "|" + ("/" + y)
  {
  }

  lemma OneSegment(y: string)
    ensures PathText([y]) == "/" + y
  {
    assert [y][1..] == [] && PathText([]) == "";
  }

  lemma TwoSegments(x: string, y: string)
    ensures PathText([x, y]) == "/" + x + ("/" + y)
  {
    hide PathText;
    OneSegment(y);
    PathTextOf(x, [y]);
    assert [x] + [y] == [x, y];
  }

  lemma PathTextOf(x: string, rest: seq<string>)
    ensures PathText([x] + rest) == "/" + x + PathText(rest)
  {
    assert ([x] + rest)[1..] == rest;
  }

  // ---- the places of transactions ----

  /** Hosts without a bar; a transaction without a port has no brackets in its host either. */
  predicate TxOk(tx: Transaction) {
    '|' !in tx.host && (tx.port > 0 || HostPort.NoBrackets(tx.host))
  }

  /** The transaction that is stored for a response from `hostport`. */
  function Observed(hostport: string, tls: bool, url: string): Transaction {
    var sp := HostPort.SplitHostPort(hostport);
    if sp.HostPort? then Transaction(sp.host, Atoi(sp.port), url)
    else Transaction(hostport, if tls then 443 else 80, url)
  }

  /** What is stored is never at fault but for a bar: only a text that does not split keeps its brackets, and such
      a one is given a port. (net/http refuses a Host with a bar, so none is observed.) */
  lemma ObservedOkIff(hostport: string, tls: bool, url: string)
    ensures TxOk(Observed(hostport, tls, url)) <==> '|' !in Observed(hostport, tls, url).host
    ensures '|' !in hostport ==> TxOk(Observed(hostport, tls, url))
  {
    hide HostPort.SplitHostPort, Atoi;
    if HostPort.SplitHostPort(hostport).HostPort? {
      HostPort.SplitBare(hostport);
    }
  }

  ghost predicate KeyFrom(key: string, host: string, port: nat) {
    key == HostPortKey(host, port) && '|' !in host && (port > 0 || HostPort.NoBrackets(host))
  }

  ghost predicate PlaceOk(p: Place) {
    Segments(p.segs) && exists host, port :: KeyFrom(p.key, host, port)
  }

  /** The key of a host without brackets. */
  ghost predicate BareKey(key: string) {
    exists host, port :: key == HostPortKey(host, port) && HostPort.NoBrackets(host)
  }

  /** What any transactions make: places with segments, and all places above them. */
  ghost predicate PlacesOk(places: set<Place>) {
    && (forall p :: p in places ==> Segments(p.segs))
    && (forall p, s :: Below(p, s) in places ==> p in places)
  }

  ghost predicate KeysOk(places: set<Place>) { forall p :: p in places ==> PlaceOk(p) }

  lemma AddedOk(places: set<Place>, tx: Transaction)
    requires PlacesOk(places)
    ensures PlacesOk(places + PlacesOf(tx))
    ensures KeysOk(places) && TxOk(tx) ==> KeysOk(places + PlacesOf(tx))
  {
    hide TreePathOf, HostPortKey, HostPort.NoBrackets, Segment;
    var key, segs := KeyOf(tx), SegsOf(tx);
    SplitPathSegments(TreePathOf(tx.url));
    assert TxOk(tx) ==> KeyFrom(key, tx.host, tx.port);
    forall p, s | Below(p, s) in PlacesOf(tx) ensures p in PlacesOf(tx) {
      var i: nat :| i <= |segs| && Below(p, s) == Place(key, segs[..i]);
      assert p.segs == Below(p, s).segs[..i - 1] == segs[..i - 1];
      assert p == Place(key, segs[..i - 1]);
    }
  }

  lemma {:induction false} AllOk(txs: seq<Transaction>)
    ensures PlacesOk(AllPlaces(txs))
    ensures (forall i :: 0 <= i < |txs| ==> TxOk(txs[i])) ==> KeysOk(AllPlaces(txs))
  {
    hide PlacesOf, TxOk, PlacesOk, KeysOk;
    if txs != [] {
      AllOk(txs[1..]);
      AddedOk(AllPlaces(txs[1..]), txs[0]);
      assert AllPlaces(txs) == AllPlaces(txs[1..]) + PlacesOf(txs[0]);
    } else {
      NoneOk();
    }
  }

  lemma NoneOk()
    ensures PlacesOk({}) && KeysOk({})
  {
  }

  // ---- what a node shows ----

  const OFF := Filters(None, "")

  /** The key a node looks its children up under. */
  function ShownKey(key: string): string {
    var n := ParseKey(key, "");
    if n.Node? then HostPortKey(n.host, n.port) else key
  }

  lemma ParsedPath(key: string, path: string)
    ensures var n, m := ParseKey(key, path), ParseKey(key, "");
      n.Node? && m.Node? && n.host == m.host && n.port == m.port && n.path == path
  {
  }

  /** The node of a place: its path, under the key it is looked up with. */
  lemma NodeOfPlace(p: Place)
    requires PlaceOk(p)
    ensures var n := ParseNodeId(IdOf(p));
      && IdOf(p) != "" && n.Node? && n.path == PathText(p.segs)
      && HostPortKey(n.host, n.port) == ShownKey(p.key) && NodePlace(n) == Place(ShownKey(p.key), p.segs)
  {
    hide HostPortKey, ParseKey, ParseNodeId, SplitPath, HostPort.NoBrackets;
    var host, port :| KeyFrom(p.key, host, port);
    SplitPathText(p.segs);
    ParsedPath(p.key, PathText(p.segs));
    if p.segs == [] {
      HostIdParsed(p.key);
    } else {
      PathIdParsed(host, port, PathText(p.segs));
    }
  }

  /** The children shown under a place are the ids of the places below it, under the key it is looked up with. */
  lemma ChildrenOfPlace(places: set<Place>, p: Place, x: string)
    requires PlacesOk(places) && PlaceOk(p)
    ensures var q := Place(ShownKey(p.key), p.segs);
      x in ChildIds(places, OFF, IdOf(p)) <==> exists s :: Below(q, s) in places && x == IdOf(Below(q, s))
  {
    hide ParseNodeId, NodePlace, HostPortKey, ShownKey, PlacesOk, PlaceOk, IdOf, PathText;
    NodeOfPlace(p);
    var n, q := ParseNodeId(IdOf(p)), Place(ShownKey(p.key), p.segs);
    if x in ChildIds(places, OFF, IdOf(p)) {
      var c :| c in places && c.segs != [] && Parent(c) == NodePlace(n) && x == ChildId(n, Last(c));
      ParentOf(c);
      ChildIdIs(q, n, Last(c));
      assert Below(q, Last(c)) == c;
    }
    if s :| Below(q, s) in places && x == IdOf(Below(q, s)) {
      ChildIdIs(q, n, s);
      ParentOf(Below(q, s));
      assert Last(Below(q, s)) == s;
    }
  }

  /** A key without brackets is looked up as itself. */
  lemma BareShown(key: string)
    requires BareKey(key)
    ensures ShownKey(key) == key
  {
    hide HostPortKey, ParseKey, HostPort.NoBrackets;
    var host, port :| key == HostPortKey(host, port) && HostPort.NoBrackets(host);
    KeyOfParsedIff(host, port, "");
  }

  /** What is shown under a key is only ever a key without brackets: a key that cannot be split is looked up with
      port 0, and no transaction without a port has brackets. */
  lemma ShownBare(p: Place, shown: Place)
    requires PlaceOk(p) && PlaceOk(shown) && shown.key == ShownKey(p.key)
    ensures BareKey(shown.key)
  {
    var key := p.key;
    hide HostPort.SplitHostPort, HostPort.NoBrackets, HostPortKey, Atoi;
    var host, port :| KeyFrom(key, host, port);
    var n := ParseKey(key, "");
    KeyOfParsedIff(host, port, "");
    if HostPort.SplitHostPort(key).HostPort? {
      HostPort.SplitBare(key);
      assert HostPort.NoBrackets(n.host);
    } else {
      var h, q :| KeyFrom(shown.key, h, q);
      KeyInjective(h, q, key, 0);
      assert HostPort.NoBrackets(h);
    }
  }

  lemma ChildIdIs(p: Place, n: Node, s: string)
    requires n.Node? && n.path == PathText(p.segs) && HostPortKey(n.host, n.port) == p.key
    ensures ChildId(n, s) == IdOf(Below(p, s))
  {
    hide HostPortKey;
    PathTextMore(p.segs, s);
  }

  lemma ChildrenOfRoot(places: set<Place>, x: string)
    ensures x in ChildIds(places, OFF, "") <==> exists k :: Root(k) in places && x == IdOf(Root(k))
  {
    hide HostPort.SplitHostPort;
    if k :| Root(k) in places && x == IdOf(Root(k)) {
      assert Listed(OFF, k);
    }
  }

  // ---- reachability ----

  /** A way down the tree widget: the root, then children of children. */
  ghost predicate Way(places: set<Place>, c: seq<string>) {
    c != [] && c[0] == "" && forall i :: 0 < i < |c| ==> c[i] in ChildIds(places, OFF, c[i - 1])
  }

  ghost predicate Reached(places: set<Place>, uid: string) {
    exists c :: Way(places, c) && c[|c| - 1] == uid
  }

  /** A place the tree shows: a host, or a path below a host without brackets. */
  ghost predicate Shown(p: Place) { p.segs == [] || BareKey(p.key) }

  lemma {:induction false} WaysLeadToPlaces(places: set<Place>, c: seq<string>) returns (p: Place)
    requires PlacesOk(places) && KeysOk(places) && Way(places, c) && |c| > 1
    ensures p in places && Shown(p) && c[|c| - 1] == IdOf(p)
    decreases |c|
  {
    hide PlacesOk, PlaceOk, ChildIds, IdOf, ShownKey, BareKey;
    if |c| == 2 {
      ChildrenOfRoot(places, c[1]);
      var k :| Root(k) in places && c[1] == IdOf(Root(k));
      p := Root(k);
    } else {
      var init := c[..|c| - 1];
      var q := WaysLeadToPlaces(places, init);
      InPlaces(places, q);
      ChildrenOfPlace(places, q, c[|c| - 1]);
      var shown := Place(ShownKey(q.key), q.segs);
      var s :| Below(shown, s) in places && c[|c| - 1] == IdOf(Below(shown, s));
      p := Below(shown, s);
      InPlaces(places, p);
      ShownBare(q, p);
    }
  }

  lemma InPlaces(places: set<Place>, q: Place)
    requires PlacesOk(places) && q in places
    ensures Segments(q.segs)
    ensures q.segs != [] ==> Parent(q) in places && (PlaceOk(q) ==> PlaceOk(Parent(q)))
  {
    if q.segs != [] {
      ParentOf(q);
    }
  }

  lemma WayMore(places: set<Place>, c: seq<string>, x: string)
    requires Way(places, c) && x in ChildIds(places, OFF, c[|c| - 1])
    ensures Way(places, c + [x])
  {
    hide ChildIds;
  }

  lemma {:induction false} PlacesAreReached(places: set<Place>, p: Place) returns (c: seq<string>)
    requires PlacesOk(places) && p in places && PlaceOk(p) && Shown(p)
    ensures Way(places, c) && c[|c| - 1] == IdOf(p)
    decreases |p.segs|
  {
    hide PlacesOk, PlaceOk, ChildIds, IdOf, Way, BareKey;
    InPlaces(places, p);
    if p.segs == [] {
      RootWay(places);
      ChildrenOfRoot(places, IdOf(p));
      assert p == Root(p.key);
      WayMore(places, [""], IdOf(p));
      c := [""] + [IdOf(p)];
    } else {
      ParentOf(p);
      var q := Parent(p);
      c := PlacesAreReached(places, q);
      OneDown(places, q, Last(p));
      WaySome(places, c);
      WayMore(places, c, IdOf(p));
      c := c + [IdOf(p)];
    }
  }

  lemma OneDown(places: set<Place>, q: Place, s: string)
    requires PlacesOk(places) && q in places && PlaceOk(q) && Below(q, s) in places && BareKey(q.key)
    ensures IdOf(Below(q, s)) in ChildIds(places, OFF, IdOf(q))
  {
    hide PlacesOk, PlaceOk, ChildIds, IdOf, Below, BareKey, ShownKey;
    InPlaces(places, q);
    BareShown(q.key);
    ChildrenOfPlace(places, q, IdOf(Below(q, s)));
  }

  lemma RootWay(places: set<Place>)
    ensures Way(places, [""])
  {
  }

  lemma WaySome(places: set<Place>, c: seq<string>)
    requires Way(places, c)
    ensures c != []
  {
  }

  lemma WayTo(places: set<Place>, uid: string) returns (c: seq<string>)
    requires Reached(places, uid)
    ensures c != [] && Way(places, c) && c[0] == "" && c[|c| - 1] == uid
  {
    hide ChildIds;
    c :| Way(places, c) && c[|c| - 1] == uid;
  }

  /** With the filters off, the nodes reachable from the root are exactly: the root, every host, and every prefix of
      an added path whose host has no brackets. */
  lemma ReachedExactly(txs: seq<Transaction>, uid: string)
    requires forall i :: 0 <= i < |txs| ==> TxOk(txs[i])
    ensures Reached(AllPlaces(txs), uid) <==>
      uid == "" || exists p :: p in AllPlaces(txs) && Shown(p) && uid == IdOf(p)
  {
    hide PlacesOk, PlaceOk, ChildIds, IdOf, Way, AllPlaces, TxOk, Shown;
    var places := AllPlaces(txs);
    AllOk(txs);
    RootWay(places);
    assert [""][0] == "";
    assert Reached(places, "");
    if Reached(places, uid) {
      var c := WayTo(places, uid);
      if |c| > 1 {
        var p := WaysLeadToPlaces(places, c);
      }
    }
    if p :| p in places && Shown(p) && uid == IdOf(p) {
      var c := PlacesAreReached(places, p);
    }
  }

  /** So every prefix of everything added is reachable if and only if no host with brackets has a path below it. */
  lemma AllReachedIff(txs: seq<Transaction>)
    requires forall i :: 0 <= i < |txs| ==> TxOk(txs[i])
    ensures (forall p :: p in AllPlaces(txs) ==> Reached(AllPlaces(txs), IdOf(p))) <==>
      forall p :: p in AllPlaces(txs) ==> Shown(p)
  {
    hide PlacesOk, KeysOk, Reached, IdOf, AllPlaces, TxOk, Shown;
    var places := AllPlaces(txs);
    AllOk(txs);
    forall p | p in places ensures Reached(places, IdOf(p)) <==> Shown(p) {
      ReachedExactly(txs, IdOf(p));
      IdNotRoot(p);
      if q :| q in places && Shown(q) && IdOf(p) == IdOf(q) {
        NoBarIn(places, p);
        NoBarIn(places, q);
        IdInjective(p, q);
      }
    }
  }

  lemma IdNotRoot(p: Place)
    ensures IdOf(p) != ""
  {
  }

  lemma NoBarIn(places: set<Place>, p: Place)
    requires KeysOk(places) && p in places
    ensures '|' !in p.key && Segments(p.segs)
  {
    hide HostPortKey, HostPort.NoBrackets;
    var host, port :| KeyFrom(p.key, host, port);
    BarInKey(host, port);
  }

  // ---- whatever the hosts are ----

  /** A place under a host with neither brackets nor a bar is reached, whatever else is in the map. */
  lemma OkHostReached(txs: seq<Transaction>, host: string, port: nat, segs: seq<string>)
    requires HostOk(host) && Place(HostPortKey(host, port), segs) in AllPlaces(txs)
    ensures Reached(AllPlaces(txs), IdOf(Place(HostPortKey(host, port), segs)))
  {
    hide PlacesOk, ChildIds, IdOf, Way, AllPlaces, HostPortKey, HostPort.NoBrackets;
    var places, p := AllPlaces(txs), Place(HostPortKey(host, port), segs);
    AllOk(txs);
    InPlaces(places, p);
    assert KeyFrom(p.key, host, port) && BareKey(p.key);
    var c := PlacesAreReached(places, p);
  }

  lemma SplitPathMore(path: string, s: string)
    requires Segment(s)
    ensures SplitPath(path + "/" + s) == SplitPath(path) + [s]
  {
    hide Strings.Split, Strings.Find;
    var a, b := Strings.Split(path, "/"), ["", s];
    assert Strings.Join(b, "/") == "/" + s by { assert b[1..] == [s]; }
    Strings.SplitJoin(b, "/");
    Strings.SplitConcat(path, "/" + s, "/");
    assert path + "/" + s == path + ("/" + s);
    assert a[|a| - 1] + "" == a[|a| - 1];
    assert b[1..] == [s] && a == a[..|a| - 1] + [a[|a| - 1]];
    assert Strings.Glue(a, b) == a + [s];
    NonEmptyMore(a, s);
  }

  lemma {:induction false} NonEmptyMore(parts: seq<string>, s: string)
    requires s != ""
    ensures NonEmpty(parts + [s]) == NonEmpty(parts) + [s]
  {
    if parts != [] {
      NonEmptyMore(parts[1..], s);
      assert (parts + [s])[1..] == parts[1..] + [s];
    } else {
      assert NonEmpty([s]) == [s] + NonEmpty([]);
    }
  }

  /** Nothing is shown that was not added: every id below the root is that of a host, or of a path whose segments
      were added under the host and port it names. */
  lemma ReachedWasAdded(txs: seq<Transaction>, uid: string)
    requires Reached(AllPlaces(txs), uid) && uid != ""
    ensures (exists k :: Root(k) in AllPlaces(txs) && uid == IdOf(Root(k)))
            || exists host, port, path {:trigger PathId(host, port, path)} :: uid == PathId(host, port, path)
                 && SplitPath(path) != [] && Place(HostPortKey(host, port), SplitPath(path)) in AllPlaces(txs)
  {
    hide PlacesOk, AllPlaces, IdOf, HostPortKey, SplitPath, ParseNodeId, PathId, Segment;
    var places := AllPlaces(txs);
    var c := WayTo(places, uid);
    var prev := c[|c| - 2];
    AllOk(txs);
    if prev == "" {
      ChildrenOfRoot(places, uid);
    } else {
      var n := ParseNodeId(prev);
      var p :| p in places && p.segs != [] && Parent(p) == NodePlace(n) && uid == ChildId(n, Last(p));
      InPlaces(places, p);
      assert Segment(Last(p));
      SplitPathMore(n.path, Last(p));
      assert p.segs == Parent(p).segs + [Last(p)];
      assert p == Place(HostPortKey(n.host, n.port), SplitPath(n.path + "/" + Last(p)));
      assert uid == PathId(n.host, n.port, n.path + "/" + Last(p));
    }
  }
}
