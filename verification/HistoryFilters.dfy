/** The two filters of the history held against each other and against plain statements: what a search finds, which
    files are static, and that query and exact filter ask for the same. */
module HistoryFilters {
  import opened Words
  import opened Strings
  import opened UrlPath
  import opened HistoryQuery

  // ---- LIKE on texts without wildcards ----

  predicate Literal(t: string) { '%' !in t && '_' !in t }

  lemma {:induction false} LikePrefixIff(t: string, rest: string, s: string)
    requires Literal(t)
    ensures Like(t + rest, s) <==> |t| <= |s| && ToLower(s[..|t|]) == ToLower(t) && Like(rest, s[|t|..])
  {
    if t == "" {
      assert t + rest == rest && s[..0] == "" && s[0..] == s;
    } else {
      assert (t + rest)[1..] == t[1..] + rest && (t + rest)[0] == t[0];
      if s != "" {
        LikePrefixIff(t[1..], rest, s[1..]);
        if |t| <= |s| {
          LowerCons(t);
          LowerCons(s[..|t|]);
          assert s[..|t|][1..] == s[1..][..|t| - 1] && s[|t|..] == s[1..][|t| - 1..];
          assert ToLower(s[..|t|])[1..] == ToLower(s[1..][..|t| - 1]) && ToLower(t)[1..] == ToLower(t[1..]);
        }
      }
    }
  }

  lemma LowerCons(s: string)
    requires s != ""
    ensures ToLower(s) == [LowerChar(s[0])] + ToLower(s[1..])
  {
  }

  lemma {:induction false} LikeAnywhereIff(p: string, s: string)
    ensures Like("%" + p, s) <==> exists i: nat :: i <= |s| && Like(p, s[i..])
    decreases |s|
  {
    var q := "%" + p;
    assert q[1..] == p && s[0..] == s;
    if s != "" {
      LikeAnywhereIff(p, s[1..]);
      if i: nat :| i <= |s[1..]| && Like(p, s[1..][i..]) {
        assert s[1..][i..] == s[i + 1..];
      }
      if i: nat :| i <= |s| && Like(p, s[i..]) && i > 0 {
        assert s[1..][i - 1..] == s[i..];
      }
    }
  }

  /** `t` occurs in `s` in either case. */
  ghost predicate Contains(s: string, t: string) { exists i: nat :: At(ToLower(s), ToLower(t), i) }

  lemma LowerSlice(s: string, i: nat, n: nat)
    requires i + n <= |s|
    ensures ToLower(s)[i..i + n] == ToLower(s[i..i + n]) == ToLower(s[i..][..n])
  {
  }

  /** `%t%` finds exactly the texts that contain `t`. */
  lemma LikeContainsIff(t: string, s: string)
    requires Literal(t)
    ensures Like("%" + t + "%", s) <==> Contains(s, t)
  {
    hide Like;
    assert "%" + t + "%" == "%" + (t + "%");
    LikeAnywhereIff(t + "%", s);
    forall i: nat | i <= |s| ensures Like(t + "%", s[i..]) <==> At(ToLower(s), ToLower(t), i) {
      LikePrefixIff(t, "%", s[i..]);
      if i + |t| <= |s| {
        LikeAnyText(s[i..][|t|..]);
        LowerSlice(s, i, |t|);
      }
    }
  }

  lemma LikeNothing()
    ensures forall s: string :: Like("", s) <==> s == ""
  {
  }

  lemma LikeFrom(p: string, s: string) returns (i: nat)
    requires Like("%" + p, s)
    ensures i <= |s| && Like(p, s[i..])
  {
    hide Like;
    LikeAnywhereIff(p, s);
    i :| i <= |s| && Like(p, s[i..]);
  }

  lemma LikeTail(t: string, s: string, i: nat)
    requires Literal(t) && i <= |s|
    ensures Like(t, s[i..]) <==> i + |t| == |s| && ToLower(s[i..]) == ToLower(t)
  {
    hide Like, ToLower;
    var r := s[i..];
    LikeNothing();
    LikePrefixIff(t, "", r);
    assert t + "" == t;
    if |r| == |t| { assert r[..|t|] == r; }
  }

  /** `s` ends with `t` in either case. */
  ghost predicate EndsWith(s: string, t: string) { |t| <= |s| && ToLower(s[|s| - |t|..]) == ToLower(t) }

  lemma LikeEndOnly(t: string, s: string)
    requires Literal(t) && Like("%" + t, s)
    ensures EndsWith(s, t)
  {
    hide Like, ToLower, Literal;
    var i := LikeFrom(t, s);
    LikeTail(t, s, i);
    assert i == |s| - |t|;
  }

  lemma LikeEndThere(t: string, s: string)
    requires Literal(t) && EndsWith(s, t)
    ensures Like("%" + t, s)
  {
    hide Like, ToLower, Literal;
    var a, b := s[..|s| - |t|], s[|s| - |t|..];
    assert s == a + b && b[..|t|] == b;
    LikePrefixIff(t, "", b);
    LikeNothing();
    assert t + "" == t;
    LikeAfter(a, t, b);
  }

  /** `%t` finds exactly the texts that end with `t`. */
  lemma LikeEndIff(t: string, s: string)
    requires Literal(t)
    ensures Like("%" + t, s) <==> EndsWith(s, t)
  {
    hide Like, Literal, EndsWith;
    if Like("%" + t, s) {
      LikeEndOnly(t, s);
    } else if EndsWith(s, t) {
      LikeEndThere(t, s);
    }
  }

  /** What the SQL pre-filter lets through, for a prefix without wildcards. */
  lemma PathLikeIff(url: string, prefix: string)
    requires Literal(prefix)
    ensures PathLike(url, prefix) <==>
      EndsWith(url, prefix) || Contains(url, prefix + "?") || Contains(url, prefix + "/")
  {
    hide Like, Contains, EndsWith;
    LikeEndIff(prefix, url);
    LikeContainsIff(prefix + "?", url);
    LikeContainsIff(prefix + "/", url);
    assert "%" + (prefix + "?%") == "%" + (prefix + "?") + "%" && "%" + (prefix + "/%") == "%" + (prefix + "/") + "%";
  }

  // ---- what a search finds ----

  /** A word of a search, without wildcards, is in a row when it occurs in its host, URL, method or status. */
  lemma TermInIff(r: Row, term: string)
    requires Literal(term)
    ensures TermIn(r, term) <==>
      Contains(r.host, term) || Contains(r.url, term) || Contains(r.method_, term) || Contains(Dec(r.status), term)
  {
    hide Like, Contains, Dec;
    LikeContainsIff(term, ToLower(r.host));
    LikeContainsIff(term, ToLower(r.url));
    LikeContainsIff(term, ToLower(r.method_));
    LikeContainsIff(term, Dec(r.status));
    LowerTwice(r.host, term);
    LowerTwice(r.url, term);
    LowerTwice(r.method_, term);
  }

  lemma LowerTwice(s: string, t: string)
    ensures Contains(ToLower(s), t) <==> Contains(s, t)
  {
    assert ToLower(ToLower(s)) == ToLower(s);
  }

  /** A filter with nothing but a search. */
  predicate OnlySearch(f: Filter) {
    f.showOutScope && f.host == "" && f.pathPrefix == "" && f.methods == [] && f.statusMin == 0 && f.statusMax == 0
  }

  /** A search selects exactly the rows in which each of its words occurs somewhere. */
  lemma SearchFinds(r: Row, f: Filter)
    requires OnlySearch(f) && Literal(f.search)
    ensures Meets(r, f) <==> forall i :: 0 <= i < |Fields(ToLower(f.search))| ==>
      var w := Fields(ToLower(f.search))[i];
      Contains(r.host, w) || Contains(r.url, w) || Contains(r.method_, w) || Contains(Dec(r.status), w)
  {
    hide Contains, TermIn, Dec, Fields, ToLower, PathLike;
    var words := Fields(ToLower(f.search));
    forall i | 0 <= i < |words| ensures Literal(words[i]) {
      LiteralLower(f.search);
      FieldsFrom(ToLower(f.search), i);
    }
    forall i | 0 <= i < |words|
      ensures TermIn(r, words[i]) <==>
        Contains(r.host, words[i]) || Contains(r.url, words[i])
        || Contains(r.method_, words[i]) || Contains(Dec(r.status), words[i])
    {
      TermInIff(r, words[i]);
    }
  }

  lemma LiteralLower(s: string)
    requires Literal(s)
    ensures Literal(ToLower(s))
  {
    var l := ToLower(s);
    forall i | 0 <= i < |l| ensures l[i] != '%' && l[i] != '_' {
      assert s[i] != '%' && s[i] != '_' && l[i] == LowerChar(s[i]);
    }
  }

  lemma FirstField(s: string) returns (w: string, rest: string)
    requires Fields(s) != []
    ensures Fields(s) == [w] + Fields(rest) && |rest| < |s|
    ensures forall c :: c in w || c in rest ==> c in s
  {
    hide NoSpace, IsSpace;
    var t := TrimLeft(s);
    var n := WordLen(t);
    w, rest := t[..n], t[n..];
    assert n > 0;
    assert t == s[|s| - |t|..];
    forall c | c in w || c in rest ensures c in s {
      assert c in t;
    }
  }

  lemma {:induction false} FieldsFrom(s: string, i: nat)
    requires i < |Fields(s)|
    ensures forall c :: c in Fields(s)[i] ==> c in s
    decreases |s|
  {
    hide Fields;
    var w, rest := FirstField(s);
    if i > 0 {
      FieldsFrom(rest, i - 1);
    }
  }

  // ---- the two filters ----

  lemma UpperMethod(a: string, b: string)
    ensures a == ToUpper(b) ==> EqualFold(a, b)
    ensures a == ToUpper(a) && EqualFold(a, b) ==> a == ToUpper(b)
  {
    forall i | 0 <= i < |b| ensures LowerChar(UpperChar(b[i])) == LowerChar(b[i]) {
    }
    if a == ToUpper(b) {
      assert ToLower(a) == ToLower(b);
    }
    if a == ToUpper(a) && EqualFold(a, b) {
      assert |a| == |ToLower(a)| == |ToLower(b)| == |b|;
      forall i | 0 <= i < |a| ensures a[i] == UpperChar(b[i]) {
        assert ToLower(a)[i] == LowerChar(a[i]) && ToLower(b)[i] == LowerChar(b[i]) && ToUpper(a)[i] == UpperChar(a[i]);
      }
      assert a == ToUpper(b);
    }
  }

  /** Query and exact filter ask for the same: without a search and static files, and with methods stored in upper
      case, the exact filter accepts a row if and only if it meets the query's conditions and its path is the prefix
      or lies under it. A port without a host is asked for by the exact filter only. */
  lemma FiltersAgree(r: Row, f: Filter)
    requires f.search == "" && !f.hideStatic && (f.host != "" || f.port == 0) && r.method_ == ToUpper(r.method_)
    ensures Exact(r, f) <==> MeetsRest(r, f) && (f.pathPrefix != "" ==>
      TreePathOf(r.url) == f.pathPrefix || (f.pathPrefix + "/") <= TreePathOf(r.url))
  {
    hide TermIn, TreePathOf, EqualFold, IsStatic;
    NoFields();
    assert ToLower("") == "";
    forall i | 0 <= i < |f.methods| ensures EqualFold(r.method_, f.methods[i]) <==> r.method_ == ToUpper(f.methods[i]) {
      UpperMethod(r.method_, f.methods[i]);
    }
  }

  /** Which rows of the query the exact filter keeps, whatever the filter and the methods are. */
  lemma ExactOfQueried(r: Row, f: Filter)
    requires MeetsRest(r, f)
    ensures Exact(r, f) <==>
      && (f.pathPrefix != "" ==>
            TreePathOf(r.url) == f.pathPrefix || (f.pathPrefix + "/") <= TreePathOf(r.url))
      && (f.hideStatic ==> !EndsStatic(r.url)) && (f.port != 0 ==> r.port == f.port)
  {
    hide TermIn, TreePathOf, EqualFold, IsStatic, EndsStatic, ToUpper;
    StaticMeans(r.url);
    if f.methods != [] {
      var i :| 0 <= i < |f.methods| && r.method_ == ToUpper(f.methods[i]);
      UpperMethod(r.method_, f.methods[i]);
    }
  }
}
