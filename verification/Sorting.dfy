/** slices.Sort on distinct strings. */
module Sorting {

  /** Strict lexicographic order. */
  predicate Before(a: string, b: string) {
    b != "" && (a == "" || a[0] < b[0] || (a[0] == b[0] && Before(a[1..], b[1..])))
  }

  lemma {:induction false} Transitive(a: string, b: string, c: string)
    requires Before(a, b) && Before(b, c)
    ensures Before(a, c)
  {
    if a != "" && a[0] == b[0] == c[0] {
      Transitive(a[1..], b[1..], c[1..]);
    }
  }

  lemma {:induction false} Total(a: string, b: string)
    ensures a != b <==> Before(a, b) || Before(b, a)
    ensures !(Before(a, b) && Before(b, a))
  {
    if a != "" && b != "" {
      Total(a[1..], b[1..]);
      assert a == [a[0]] + a[1..] && b == [b[0]] + b[1..];
    }
  }

  ghost predicate Ascending(s: seq<string>) {
    forall i, j :: 0 <= i < j < |s| ==> Before(s[i], s[j])
  }

  ghost predicate Distinct(s: seq<string>) {
    forall i, j :: 0 <= i < j < |s| ==> s[i] != s[j]
  }

  function Elems(s: seq<string>): set<string> { set x | x in s }

  lemma Append(s: seq<string>, x: string)
    ensures Elems(s + [x]) == Elems(s) + {x}
    ensures Distinct(s) && x !in Elems(s) ==> Distinct(s + [x])
  {
  }

  function Insert(x: string, s: seq<string>): (r: seq<string>)
    requires Ascending(s) && x !in s
    ensures Ascending(r) && Elems(r) == Elems(s) + {x}
  {
    hide Before;
    if s == [] then [x]
    else
      Total(x, s[0]);
      assert s == [s[0]] + s[1..];
      if Before(x, s[0]) then
        assert forall y :: y in s[1..] ==> Before(x, y) by {
          forall y | y in s[1..] ensures Before(x, y) { Transitive(x, s[0], y); }
        }
        [x] + s
      else
        var t := Insert(x, s[1..]);
        assert forall y :: y in t ==> Before(s[0], y) by {
          forall y | y in t ensures Before(s[0], y) { assert y in Elems(t); }
        }
        [s[0]] + t
  }

  function Sort(s: seq<string>): (r: seq<string>)
    requires Distinct(s)
    ensures Ascending(r) && Elems(r) == Elems(s)
  {
    hide Before;
    if s == [] then []
    else
      var t := Sort(s[1..]);
      assert forall y :: y in t ==> y in Elems(t);
      assert s == [s[0]] + s[1..];
      Insert(s[0], t)
  }

  /** The sorted list of a set is the only one. */
  lemma {:induction false} SortedUnique(a: seq<string>, b: seq<string>)
    requires Ascending(a) && Ascending(b) && Elems(a) == Elems(b)
    ensures a == b
  {
    hide Before;
    assert forall x :: x in a <==> x in Elems(a);
    assert forall x :: x in b <==> x in Elems(b);
    assert |a| > 0 <==> |b| > 0 by {
      if |a| > 0 { assert a[0] in b; }
      if |b| > 0 { assert b[0] in a; }
    }
    if a != [] && b != [] {
      FirstIsLeast(a, b);
      RestElems(a);
      RestElems(b);
      SortedUnique(a[1..], b[1..]);
      assert a == [a[0]] + a[1..] && b == [b[0]] + b[1..];
    }
  }

  lemma FirstIsLeast(a: seq<string>, b: seq<string>)
    requires a != [] && b != [] && Ascending(a) && Ascending(b) && a[0] in b && b[0] in a
    ensures a[0] == b[0]
  {
    hide Before;
    Total(a[0], b[0]);
  }

  lemma RestElems(a: seq<string>)
    requires a != [] && Ascending(a)
    ensures Elems(a[1..]) == Elems(a) - {a[0]}
  {
    hide Before;
    assert a == [a[0]] + a[1..];
    forall x | x in a[1..] ensures x != a[0] { Total(x, a[0]); }
  }
}
