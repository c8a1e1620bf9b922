/** The string operations of Go's `strings` package that the modelled code leans on: Index, Split,
    Join, ReplaceAll and a few character predicates. A string stands for the runes or the bytes
    of a Go string, whichever the caller counts. */
module Strings {

  const LF: string := "\n"
  const CRLF: string := "\r\n"
  const BLANK: string := "\r\n\r\n"

  /** `sep` occurs in `s` at index `i`. */
  predicate At(s: string, sep: string, i: nat) {
    i + |sep| <= |s| && s[i..i + |sep|] == sep
  }

  /** Occurrences in the tail are the later occurrences in the whole. */
  lemma AtTail(s: string, sep: string, i: nat)
    requires s != "" && i > 0
    ensures At(s, sep, i) <==> At(s[1..], sep, i - 1)
  {
    if i + |sep| <= |s| {
      assert s[1..][i - 1..i - 1 + |sep|] == s[i..i + |sep|];
    }
  }

  lemma AtStart(s: string, sep: string)
    ensures At(s, sep, 0) <==> sep <= s
  {
    if sep <= s {
      assert s[0..|sep|] == sep;
    }
  }

  /** strings.Index: the first occurrence, or -1. */
  function Find(s: string, sep: string): (r: int)
    ensures -1 <= r
    ensures r >= 0 ==> At(s, sep, r)
    ensures forall i: nat :: At(s, sep, i) ==> 0 <= r <= i
  {
    AtStart(s, sep);
    if sep <= s then 0
    else if s == "" then -1
    else
      var r := Find(s[1..], sep);
      assert forall i: nat :: i > 0 ==> (At(s, sep, i) <==> At(s[1..], sep, i - 1)) by {
        forall i: nat | i > 0 ensures At(s, sep, i) <==> At(s[1..], sep, i - 1) {
          AtTail(s, sep, i);
        }
      }
      hide At;
      if r < 0 then -1 else r + 1
  }

  /** Any characterisation of the first occurrence determines Find. */
  lemma FindIs(s: string, sep: string, r: nat)
    requires At(s, sep, r)
    requires forall i: nat | i < r :: !At(s, sep, i)
    ensures Find(s, sep) == r
  {
    var f := Find(s, sep);
    assert 0 <= f <= r;
  }

  lemma FindNone(s: string, sep: string)
    requires forall i: nat :: !At(s, sep, i)
    ensures Find(s, sep) == -1
  {
  }

  /** strings.Split for a non-empty separator. */
  function Split(s: string, sep: string): (parts: seq<string>)
    requires sep != ""
    ensures parts != []
    decreases |s|
  {
    var i := Find(s, sep);
    if i < 0 then [s] else [s[..i]] + Split(s[i + |sep|..], sep)
  }

  /** strings.Join. */
  function Join(parts: seq<string>, sep: string): string {
    if |parts| == 0 then ""
    else if |parts| == 1 then parts[0]
    else parts[0] + sep + Join(parts[1..], sep)
  }

  /** strings.ReplaceAll for a non-empty `old`: cut at every occurrence and join with `new`. */
  function ReplaceAll(s: string, old_: string, new_: string): string
    requires old_ != ""
  {
    Join(Split(s, old_), new_)
  }

  lemma JoinCons(first: string, rest: seq<string>, sep: string)
    requires rest != []
    ensures Join([first] + rest, sep) == first + sep + Join(rest, sep)
  {
    assert ([first] + rest)[1..] == rest;
  }

  lemma CutOut(s: string, sep: string, i: nat)
    requires At(s, sep, i)
    ensures s[..i] + sep + s[i + |sep|..] == s
  {
    assert s == s[..i] + s[i..i + |sep|] + s[i + |sep|..];
  }

  lemma {:induction false} JoinSplit(s: string, sep: string)
    requires sep != ""
    ensures Join(Split(s, sep), sep) == s
    decreases |s|
  {
    hide Find, At;
    var i := Find(s, sep);
    if i >= 0 {
      CutOut(s, sep, i);
      AtFits(s, sep, i);
      JoinSplit(s[i + |sep|..], sep);
      JoinCons(s[..i], Split(s[i + |sep|..], sep), sep);
    }
  }

  lemma AtFits(s: string, sep: string, i: nat)
    requires At(s, sep, i)
    ensures i + |sep| <= |s|
  {
  }

  /** The separators used here ("\n", "\r\n", "\r", "/") end with a character they do not repeat. */
  predicate EndsUniquely(sep: string) {
    sep != "" && sep[|sep| - 1] !in sep[..|sep| - 1]
  }

  /** Text without carriage returns has no CRLF to cut or replace. */
  lemma NoCrlf(s: string)
    requires '\r' !in s
    ensures Split(s, CRLF) == [s] && forall t :: ReplaceAll(s, CRLF, t) == s
  {
    forall i: nat ensures !At(s, CRLF, i) {
      if i + 2 <= |s| { assert s[i..i + 2][0] == s[i]; }
    }
    FindNone(s, CRLF);
  }

  /** No part contains the last character of the separator. */
  predicate Free(parts: seq<string>, c: char) {
    forall i | 0 <= i < |parts| :: c !in parts[i]
  }

  /** A part without the separator's last character is cut off exactly at its end. */
  lemma CutAfterFreePart(p: string, sep: string, rest: string)
    requires EndsUniquely(sep) && sep[|sep| - 1] !in p
    ensures Find(p + sep + rest, sep) == |p|
    ensures Find(p, sep) == -1
  {
    var s := p + sep + rest;
    var k := |sep| - 1;
    assert s[|p|..|p| + |sep|] == sep;
    forall i: nat | i < |p| ensures !At(s, sep, i) {
      // i + k lies before the last character of the separator at |p|
      assert i + k < |p| + k && i + |sep| <= |s|;
      assert s[i..i + |sep|][k] == s[i + k];
      assert s[i + k] == if i + k < |p| then p[i + k] else sep[..k][i + k - |p|];
    }
    FindIs(s, sep, |p|);
    forall i: nat ensures !At(p, sep, i) {
      if i + |sep| <= |p| {
        assert p[i..i + |sep|][k] == p[i + k];
      }
    }
    FindNone(p, sep);
  }

  lemma {:induction false} SplitJoin(parts: seq<string>, sep: string)
    requires EndsUniquely(sep) && parts != [] && Free(parts, sep[|sep| - 1])
    ensures Split(Join(parts, sep), sep) == parts
  {
    if |parts| == 1 {
      CutAfterFreePart(parts[0], sep, "");
    } else {
      var rest := Join(parts[1..], sep);
      CutAfterFreePart(parts[0], sep, rest);
      SplitJoin(parts[1..], sep);
      var s := parts[0] + sep + rest;
      assert s[|parts[0]| + |sep|..] == rest;
      assert s[..|parts[0]|] == parts[0];
    }
  }

  /** A one-character separator never survives in a part. */
  lemma {:induction false} SplitFree(s: string, sep: string)
    requires |sep| == 1
    ensures Free(Split(s, sep), sep[0])
    decreases |s|
  {
    var i := Find(s, sep);
    var p := if i < 0 then s else s[..i];
    if sep[0] in p {
      var k :| 0 <= k < |p| && p[k] == sep[0];
      assert At(s, sep, k);
      assert false;
    }
    if i >= 0 {
      SplitFree(s[i + 1..], sep);
    }
  }

  /** Splitting only drops characters. */
  lemma {:induction false} SplitKeepsFree(s: string, sep: string, c: char)
    requires sep != "" && c !in s
    ensures Free(Split(s, sep), c)
    decreases |s|
  {
    var i := Find(s, sep);
    if i >= 0 {
      SplitKeepsFree(s[i + |sep|..], sep, c);
    }
  }

  lemma {:induction false} JoinFree(parts: seq<string>, sep: string, c: char)
    requires c !in sep && Free(parts, c)
    ensures c !in Join(parts, sep)
  {
    if |parts| > 1 {
      JoinFree(parts[1..], sep, c);
    }
  }

  /** Cutting at a separator and joining with another is a bijection on free parts. */
  lemma ReplaceJoined(parts: seq<string>, old_: string, new_: string)
    requires EndsUniquely(old_) && parts != [] && Free(parts, old_[|old_| - 1])
    ensures ReplaceAll(Join(parts, old_), old_, new_) == Join(parts, new_)
  {
    SplitJoin(parts, old_);
  }

  // ---- gluing: Join turns it into concatenation ----

  /** The lines of a concatenation: the last of `p` and the first of `q` become one. */
  function Glue(p: seq<string>, q: seq<string>): (r: seq<string>)
    requires p != [] && q != []
    ensures |r| == |p| + |q| - 1
  {
    p[..|p| - 1] + [p[|p| - 1] + q[0]] + q[1..]
  }

  lemma {:induction false} JoinGlue(p: seq<string>, q: seq<string>, sep: string)
    requires p != [] && q != []
    ensures Join(Glue(p, q), sep) == Join(p, sep) + Join(q, sep)
  {
    var g := Glue(p, q);
    if |p| == 1 {
      assert g[1..] == q[1..];
      if |q| > 1 {
        assert g[0] + sep + Join(g[1..], sep) == p[0] + (q[0] + sep + Join(q[1..], sep));
      }
    } else {
      JoinGlue(p[1..], q, sep);
      assert g[1..] == Glue(p[1..], q);
    }
  }

  lemma GlueFree(p: seq<string>, q: seq<string>, c: char)
    requires p != [] && q != [] && Free(p, c) && Free(q, c)
    ensures Free(Glue(p, q), c)
  {
    var g := Glue(p, q);
    forall i | 0 <= i < |g| ensures c !in g[i] {
      if i >= |p| { assert g[i] == q[i - |p| + 1]; }
    }
  }

  /** Splitting a concatenation glues the two splits (one-character separators). */
  lemma SplitConcat(a: string, b: string, sep: string)
    requires |sep| == 1
    ensures Split(a + b, sep) == Glue(Split(a, sep), Split(b, sep))
  {
    var g := Glue(Split(a, sep), Split(b, sep));
    SplitFree(a, sep);
    SplitFree(b, sep);
    GlueFree(Split(a, sep), Split(b, sep), sep[0]);
    JoinGlue(Split(a, sep), Split(b, sep), sep);
    JoinSplit(a, sep);
    JoinSplit(b, sep);
    SplitJoin(g, sep);
  }
}
