/** net.SplitHostPort and net.JoinHostPort. */
module HostPort {

  datatype Split = HostPort(host: string, port: string) | MissingPort | TooManyColons | MissingBracket
    | UnexpectedBracket

  /** The first or last index of a character, or -1. */
  function IndexOf(s: string, c: char): (r: int)
    ensures -1 <= r < |s|
    ensures r >= 0 ==> s[r] == c
    ensures forall k :: 0 <= k < |s| && s[k] == c ==> 0 <= r <= k
  {
    if s == "" then -1 else if s[0] == c then 0
    else
      var r := IndexOf(s[1..], c);
      assert forall k :: 0 < k < |s| ==> s[k] == s[1..][k - 1];
      if r < 0 then -1 else r + 1
  }

  function LastIndexOf(s: string, c: char): (r: int)
    ensures -1 <= r < |s|
    ensures r >= 0 ==> s[r] == c
    ensures forall k :: 0 <= k < |s| && s[k] == c ==> k <= r
  {
    if s == "" then -1 else if s[|s| - 1] == c then |s| - 1
    else
      LastIndexOf(s[..|s| - 1], c)
  }

  function SplitHostPort(hostport: string): Split {
    var i := LastIndexOf(hostport, ':');
    if i < 0 then MissingPort
    else if hostport[0] == '[' then
      var end := IndexOf(hostport, ']');
      if end < 0 then MissingBracket
      else if end + 1 == |hostport| then MissingPort
      else if end + 1 != i then if hostport[end + 1] == ':' then TooManyColons else MissingPort
      else if '[' in hostport[1..] || ']' in hostport[end + 1..] then UnexpectedBracket
      else HostPort(hostport[1..end], hostport[i + 1..])
    else if ':' in hostport[..i] then TooManyColons
    else if '[' in hostport || ']' in hostport then UnexpectedBracket
    else HostPort(hostport[..i], hostport[i + 1..])
  }

  function JoinHostPort(host: string, port: string): string {
    if ':' in host then "[" + host + "]:" + port else host + ":" + port
  }

  predicate NoBrackets(s: string) { '[' !in s && ']' !in s }

  lemma CharAt(a: string, c: char, b: string, k: nat)
    requires k < |a| + 1 + |b|
    ensures (a + [c] + b)[k] == if k < |a| then a[k] else if k == |a| then c else b[k - |a| - 1]
  {
  }

  lemma LastColon(a: string, port: string)
    requires ':' !in port
    ensures LastIndexOf(a + ":" + port, ':') == |a|
  {
    hide LastIndexOf;
    var s := a + [':'] + port;
    assert s == a + ":" + port;
    var r := LastIndexOf(s, ':');
    CharAt(a, ':', port, |a|);
    forall k | |a| < k < |s| ensures s[k] != ':' {
      CharAt(a, ':', port, k);
    }
  }

  lemma FirstBracket(host: string, rest: string)
    requires ']' !in host
    ensures IndexOf("[" + host + "]" + rest, ']') == |host| + 1
  {
    hide IndexOf;
    var s := "[" + host + "]" + rest;
    assert s[|host| + 1] == ']';
    assert forall k :: 0 <= k < |host| + 1 ==> s[k] == if k == 0 then '[' else host[k - 1];
  }

  lemma BracketedSplits(host: string, port: string)
    requires ':' !in port && NoBrackets(port) && NoBrackets(host)
    ensures SplitHostPort("[" + host + "]:" + port) == HostPort(host, port)
  {
    hide IndexOf, LastIndexOf;
    var a, s := "[" + host + "]", "[" + host + "]:" + port;
    assert s == a + ":" + port == a + (":" + port);
    LastColon(a, port);
    FirstBracket(host, ":" + port);
    assert s[0] == '[' && s[1..|a| - 1] == host && s[|a| + 1..] == port;
    assert s[1..] == host + "]:" + port && s[|a|..] == ":" + port;
  }

  lemma BareSplits(host: string, port: string)
    requires ':' !in port && NoBrackets(port) && NoBrackets(host) && ':' !in host
    ensures SplitHostPort(host + ":" + port) == HostPort(host, port)
  {
    var s := host + ":" + port;
    LastColon(host, port);
    assert s[..|host|] == host && s[|host| + 1..] == port;
  }

  /** Splitting undoes joining exactly when the host has no brackets of its own. */
  lemma SplitJoin(host: string, port: string)
    requires ':' !in port && NoBrackets(port)
    ensures SplitHostPort(JoinHostPort(host, port)) == HostPort(host, port) <==> NoBrackets(host)
  {
    hide SplitHostPort;
    var s := JoinHostPort(host, port);
    if NoBrackets(host) {
      if ':' in host { BracketedSplits(host, port); } else { BareSplits(host, port); }
    }
    if SplitHostPort(s) == HostPort(host, port) {
      SplitBare(s);
    }
  }

  /** A host that came out of a split has no brackets; without a bracket in front, it has no colon either. */
  lemma SplitBare(v: string)
    requires SplitHostPort(v).HostPort?
    ensures NoBrackets(SplitHostPort(v).host)
    ensures v != "" && (v[0] != '[' ==> ':' !in SplitHostPort(v).host)
    ensures |SplitHostPort(v).host| < |v|
    ensures forall c :: c in SplitHostPort(v).host ==> c in v
  {
    if v[0] == '[' {
      var end := IndexOf(v, ']');
      var h := v[1..end];
      forall k | 0 <= k < |h| ensures h[k] != '[' && h[k] != ']' {
        assert h[k] == v[1..][k] && h[k] == v[k + 1];
      }
    }
  }
}
