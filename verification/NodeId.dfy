/** The ids of site-map nodes: built from host, port and path, and taken apart again. */
module NodeId {
  import opened Strings
  import opened Words
  import HP = HostPort

  datatype Node = Node(host: string, port: nat, path: string) | NoNode

  predicate Digits(s: string) { s != "" && forall i :: 0 <= i < |s| ==> '0' <= s[i] <= '9' }

  /** strconv.Atoi with its error ignored: 0 for what is no number. */
  function Atoi(s: string): nat { if Digits(s) then Number(s) else 0 }

  function HostPortKey(host: string, port: nat): string { HP.JoinHostPort(host, Dec(port)) }

  function HostId(host: string, port: nat): string { "h:" + HostPortKey(host, port) }
  function PathId(host: string, port: nat, path: string): string { "p:" + HostPortKey(host, port) + "|" + path }

  function ParseKey(key: string, path: string): Node {
    match HP.SplitHostPort(key)
    case HostPort(h, p) => Node(h, Atoi(p), path)
    case _ => Node(key, 0, path)
  }

  /** parseNodeID. */
  function ParseNodeId(uid: string): Node {
    if "h:" <= uid then ParseKey(uid[2..], "")
    else if "p:" <= uid then
      var i := Find(uid[2..], "|");
      if i < 0 then NoNode else ParseKey(uid[2..][..i], uid[2..][i + 1..])
    else NoNode
  }

  lemma DecPlain(n: nat)
    ensures ':' !in Dec(n) && '|' !in Dec(n) && HP.NoBrackets(Dec(n)) && Digits(Dec(n)) && Atoi(Dec(n)) == n
  {
    NumberOfDec(n);
  }

  /** The key of a host and port splits into them exactly when the host has no brackets. */
  lemma ParseKeyIff(host: string, port: nat, path: string)
    ensures ParseKey(HostPortKey(host, port), path) == Node(host, port, path) <==> HP.NoBrackets(host)
  {
    hide HP.SplitHostPort, Dec, Atoi;
    var key := HostPortKey(host, port);
    DecPlain(port);
    HP.SplitJoin(host, Dec(port));
    assert |key| > |host|;
    if HP.SplitHostPort(key).HostPort? {
      HP.SplitBare(key);
    }
  }

  /** Different hosts or ports have different keys. */
  lemma KeyInjective(a: string, m: nat, b: string, n: nat)
    requires HostPortKey(a, m) == HostPortKey(b, n)
    ensures a == b && m == n
  {
    hide Dec, HP.LastIndexOf;
    DecPlain(m);
    DecPlain(n);
    var x, y := if ':' in a then "[" + a + "]" else a, if ':' in b then "[" + b + "]" else b;
    var key := HostPortKey(a, m);
    assert key == x + ":" + Dec(m) == y + ":" + Dec(n);
    HP.LastColon(x, Dec(m));
    HP.LastColon(y, Dec(n));
    assert x == key[..|x|] == key[..|y|] == y && Dec(m) == key[|x| + 1..] == Dec(n);
    if ':' in a {
      assert ':' in x;
      assert a == x[1..|x| - 1];
    }
    if ':' in b {
      assert ':' in y;
      assert b == y[1..|y| - 1];
    }
  }

  /** The node a key is parsed into has that key again if and only if the host has no brackets. */
  lemma KeyOfParsedIff(host: string, port: nat, path: string)
    ensures var n := ParseKey(HostPortKey(host, port), path);
      && n.Node? && n.path == path
      && (HostPortKey(n.host, n.port) == HostPortKey(host, port) <==> HP.NoBrackets(host))
  {
    hide HP.SplitHostPort, HP.NoBrackets, Dec, Atoi;
    var key := HostPortKey(host, port);
    var n := ParseKey(key, path);
    ParseKeyIff(host, port, path);
    PathOfKey(key, path);
    if HostPortKey(n.host, n.port) == key {
      KeyInjective(n.host, n.port, host, port);
    }
  }

  lemma HostIdRoundTrip(host: string, port: nat)
    ensures ParseNodeId(HostId(host, port)) == Node(host, port, "") <==> HP.NoBrackets(host)
  {
    hide ParseKey, HostPortKey;
    assert HostId(host, port)[2..] == HostPortKey(host, port);
    ParseKeyIff(host, port, "");
  }

  predicate HostOk(host: string) { HP.NoBrackets(host) && '|' !in host }

  lemma BarInKey(host: string, port: nat)
    ensures '|' in HostPortKey(host, port) <==> '|' in host
  {
    hide Dec;
    DecPlain(port);
  }

  /** parseNodeID undoes a path id exactly when the host has neither brackets nor a bar. */
  lemma PathIdRoundTrip(host: string, port: nat, path: string)
    ensures ParseNodeId(PathId(host, port, path)) == Node(host, port, path) <==> HostOk(host)
  {
    hide ParseKey, HostPortKey, Find;
    var key, uid := HostPortKey(host, port), PathId(host, port, path);
    BarInKey(host, port);
    var s := uid[2..];
    assert s == key + "|" + path;
    assert uid[..2] == "p:" && uid[0] == 'p' && "h:"[0] == 'h';
    var i := Find(s, "|");
    assert s[|key|..|key| + 1] == "|";
    assert At(s, "|", |key|);
    if '|' !in key {
      CutAfterFreePart(key, "|", path);
      assert s[..i] == key && s[i + 1..] == path;
      ParseKeyIff(host, port, path);
    } else {
      var k :| 0 <= k < |key| && key[k] == '|';
      assert s[k] == '|' && s[k..k + 1] == "|";
      assert At(s, "|", k) && i <= k;
      PathOfKey(s[..i], s[i + 1..]);
      assert |s[i + 1..]| > |path|;
    }
  }

  lemma PathOfKey(key: string, path: string)
    ensures var n := ParseKey(key, path);
      n.Node? && n.path == path && forall c :: c in n.host ==> c in key
  {
    hide HP.SplitHostPort, Atoi;
    if HP.SplitHostPort(key).HostPort? {
      HP.SplitBare(key);
    }
  }

  /** A path id whose host has a bar is parsed into a node with another key. */
  lemma BarParsesElsewhere(host: string, port: nat, path: string)
    requires '|' in host
    ensures var n := ParseNodeId(PathId(host, port, path));
      n.Node? && HostPortKey(n.host, n.port) != HostPortKey(host, port)
  {
    hide ParseKey, HostPortKey, Find;
    var key, uid := HostPortKey(host, port), PathId(host, port, path);
    BarInKey(host, port);
    var s := uid[2..];
    assert s == key + "|" + path;
    assert uid[..2] == "p:" && uid[0] == 'p' && "h:"[0] == 'h';
    var k :| 0 <= k < |key| && key[k] == '|';
    assert s[k] == '|' && s[k..k + 1] == "|";
    assert At(s, "|", k);
    var i := Find(s, "|");
    assert s[..i] == s[..k][..i];
    forall j: nat | j < i ensures s[..i][j] != '|' {
      assert !At(s, "|", j) && s[j..j + 1] == [s[j]];
    }
    PathOfKey(s[..i], s[i + 1..]);
    var n := ParseKey(s[..i], s[i + 1..]);
    BarInKey(n.host, n.port);
  }
}
