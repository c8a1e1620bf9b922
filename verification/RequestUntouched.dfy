/** What patchRaw writes when the plugin changed nothing: when the text comes back byte for byte, and when it does
    not. */
module RequestUntouched {
  import opened Strings
  import opened Words
  import opened RawRequest
  import opened RequestPatch
  import opened RequestChanges

  /** An order in which the keys of a map can be gone through. */
  ghost predicate Goes(h: Header, order: seq<string>) {
    forall k :: k in order <==> k in h
  }

  /** What the repeater does with a plugin that changed nothing: parse the headers, hand them over, patch. */
  function Untouched(raw: string, uri: string, path: string, method_: string, order: seq<string>): string {
    var n := NormalizeLineEndings(raw);
    var lines, body := Split(SplitRaw(n).header, CRLF), SplitRaw(n).body;
    PatchRaw(n, SplitRaw(n).header, body, method_, path, Answer(method_, uri, OwnHeader(lines), body), order)
  }

  /** The target is what it was, or the request line has the new one already: RequestURI may spell a target
      differently (without its fragment, say). */
  predicate TargetKept(first: string, uri: string, path: string, method_: string) {
    var p := if uri == "" || uri == "?" then path else uri;
    p == path || first == method_ + " " + p + " HTTP/1.1"
  }

  /** The key that has the last word on the line of a name. */
  function LastKey(h: Header, order: seq<string>, name: string): string {
    var i := KeyFor(h, order, name);
    if i >= 0 then order[i] else ""
  }

  /** The first field of each name already has the value its last key writes there. */
  ghost predicate Agrees(lines: seq<string>, order: seq<string>) {
    forall m :: First(lines, m) ==>
      Value(OwnHeader(lines), LastKey(OwnHeader(lines), order, Name(lines, m))) == FieldOf(lines[m]).value
  }

  // ---- every key of the map has its header ----

  lemma KeyHasLine(lines: seq<string>, key: string) returns (n: nat)
    requires Filled(lines) && key in OwnHeader(lines)
    ensures Header?(lines, n) && Canon(Name(lines, n)) == key && EqualFold(Name(lines, n), key)
    ensures 1 <= FindField(lines, key, 1) <= n && OwnHeader(lines)[key] == Values(lines, 1, key) != []
  {
    hide FieldOf, Canon, FindField, ParseFrom, Values, EqualFold, Filled;
    ParsedValues(lines, 1, map[], key);
    n := SomeLine(lines, 1, key);
    CanonFold(Name(lines, n));
    FoldSymmetric(Canon(Name(lines, n)), Name(lines, n));
    FindReaches(lines, key, 1, n);
  }

  lemma LineHasKey(lines: seq<string>, m: nat)
    requires Filled(lines) && Header?(lines, m)
    ensures var key := Canon(Name(lines, m));
      && key in OwnHeader(lines) && Get(OwnHeader(lines), key) == Values(lines, 1, key) != []
      && EqualFold(Name(lines, m), key)
  {
    hide FieldOf, Canon, ParseFrom, Values, EqualFold;
    ParsedValues(lines, 1, map[], Canon(Name(lines, m)));
    var at := HasValue(lines, 1, m);
    CanonFold(Name(lines, m));
    FoldSymmetric(Canon(Name(lines, m)), Name(lines, m));
  }

  lemma {:induction false} NothingAppended(lines: seq<string>, h: Header, keys: seq<string>)
    requires forall k :: k in keys ==> FindField(lines, k, 1) >= 0
    ensures Extra(lines, h, keys) == []
    decreases |keys|
  {
    hide FindField;
    if keys != [] {
      assert keys[|keys| - 1] in keys;
      assert forall k :: k in keys[..|keys| - 1] ==> k in keys;
      NothingAppended(lines, h, keys[..|keys| - 1]);
    }
  }

  lemma NewFirstLine(lines: seq<string>, first: string, key: string)
    requires lines != [] && Filled(lines)
    ensures Filled(lines[0 := first]) && FindField(lines[0 := first], key, 1) == FindField(lines, key, 1)
  {
    hide FieldOf, FindField, EqualFold;
    assert SameNames(lines[0 := first], lines);
    SameFold(key);
    FindSame(lines[0 := first], lines, key, key, 1);
  }

  /** The key with the last word is one of the map's, and names the field. */
  lemma LastKeyNames(lines: seq<string>, order: seq<string>, m: nat)
    requires Filled(lines) && Header?(lines, m) && Goes(OwnHeader(lines), order)
    ensures var h, k := OwnHeader(lines), LastKey(OwnHeader(lines), order, Name(lines, m));
      && KeyFor(h, order, Name(lines, m)) >= 0 && k in h && EqualFold(Name(lines, m), k)
  {
    hide FieldOf, Canon, ParseFrom, Values, EqualFold, Filled;
    LineHasKey(lines, m);
    var key := Canon(Name(lines, m));
    assert key in order;
    var i :| 0 <= i < |order| && order[i] == key;
    assert Names(OwnHeader(lines), order[i], Name(lines, m));
  }

  // ---- the patched lines ----

  function Rewritten(lines: seq<string>, order: seq<string>, m: nat): string
    requires m < |lines|
  {
    if First(lines, m)
    then Text(Name(lines, m), Value(OwnHeader(lines), LastKey(OwnHeader(lines), order, Name(lines, m))))
    else lines[m]
  }

  lemma PatchedLines(lines: seq<string>, first: string, order: seq<string>)
    requires lines != [] && Filled(lines) && Goes(OwnHeader(lines), order)
    ensures var cur := PatchFields(lines[0 := first], OwnHeader(lines), order);
      && |cur| == |lines| && cur[0] == first
      && forall m: nat :: 0 < m < |lines| ==> cur[m] == Rewritten(lines, order, m)
  {
    hide FieldOf, FindField, ParseFrom, EqualFold, KeyFor, Value, Text, Filled;
    var l, h := lines[0 := first], OwnHeader(lines);
    NewFirstLine(lines, first, "");
    PatchedInPlace(l, h, order);
    forall k | k in order ensures FindField(l, k, 1) >= 0 {
      var n := KeyHasLine(lines, k);
      NewFirstLine(lines, first, k);
    }
    NothingAppended(l, h, order);
    var cur := PatchFields(l, h, order);
    FirstUntouched(cur, l, h, order);
    forall m: nat | 0 < m < |lines| ensures cur[m] == Rewritten(lines, order, m) {
      assert cur[m] == Updated(l, h, order, m);
      if Header?(lines, m) {
        NewFirstLine(lines, first, Name(lines, m));
        LastKeyNames(lines, order, m);
      }
    }
  }

  lemma TextInjective(line: string, value: string)
    requires FieldOf(line).Field?
    ensures Text(FieldOf(line).name, value) == line <==> value == FieldOf(line).value
  {
    TextField(line, value);
  }

  lemma {:induction false} ValuesFree(lines: seq<string>, i: nat, k: string)
    requires Free(lines, '\n')
    ensures Free(Values(lines, i, k), '\n')
    decreases |lines| - i
  {
    hide Canon, Find;
    if i < |lines| && lines[i] != "" {
      ValuesFree(lines, i + 1, k);
    }
  }

  lemma PatchedFree(lines: seq<string>, m: nat, key: string)
    requires Free(lines, '\n') && Filled(lines) && Header?(lines, m) && key in OwnHeader(lines)
    ensures '\n' !in Text(Name(lines, m), Value(OwnHeader(lines), key))
    ensures Text(Name(lines, m), Value(OwnHeader(lines), key)) != ""
  {
    hide FindField, ParseFrom, Values, Canon, EqualFold, Join, Find;
    var n := KeyHasLine(lines, key);
    ValuesFree(lines, 1, key);
    JoinFree(Values(lines, 1, key), ", ", '\n');
    assert '\n' !in lines[m];
  }

  /** The patched lines are fit to be told apart again. */
  lemma PatchedSplittable(lines: seq<string>, first: string, order: seq<string>)
    requires Splittable(lines) && '\n' !in first && Goes(OwnHeader(lines), order)
    ensures Splittable(PatchFields(lines[0 := first], OwnHeader(lines), order))
  {
    hide FieldOf, FindField, ParseFrom, EqualFold, KeyFor, Value, Text, PatchFields;
    PatchedLines(lines, first, order);
    var cur := PatchFields(lines[0 := first], OwnHeader(lines), order);
    forall m | 0 <= m < |cur| ensures '\n' !in cur[m] && (m > 0 ==> cur[m] != "") {
      if m > 0 && First(lines, m) {
        LastKeyNames(lines, order, m);
        PatchedFree(lines, m, LastKey(OwnHeader(lines), order, Name(lines, m)));
      }
    }
  }

  lemma LinesComeBack(lines: seq<string>, first: string, order: seq<string>)
    requires lines != [] && Filled(lines) && Goes(OwnHeader(lines), order)
    ensures PatchFields(lines[0 := first], OwnHeader(lines), order) == lines <==>
      first == lines[0] && Agrees(lines, order)
  {
    hide FieldOf, FindField, ParseFrom, EqualFold, KeyFor, Value, Text, PatchFields, LastKey, Filled, Goes;
    PatchedLines(lines, first, order);
    var h, cur := OwnHeader(lines), PatchFields(lines[0 := first], OwnHeader(lines), order);
    forall m | First(lines, m)
      ensures cur[m] == lines[m] <==> Value(h, LastKey(h, order, Name(lines, m))) == FieldOf(lines[m]).value
    {
      TextInjective(lines[m], Value(h, LastKey(h, order, Name(lines, m))));
    }
    if first == lines[0] && Agrees(lines, order) {
      assert forall m :: 0 <= m < |lines| ==> cur[m] == lines[m];
    }
  }

  // ---- when the text comes back ----

  /** For every text, target and order: the normalised text comes back byte for byte if and only if the target is
      kept and the first field of each name already has the value its last key writes there. */
  lemma UntouchedIff(raw: string, uri: string, path: string, method_: string, order: seq<string>)
    requires '\n' !in uri && '\n' !in path && '\n' !in method_
    requires Goes(OwnHeader(NormLines(raw)), order)
    ensures Untouched(raw, uri, path, method_, order) == NormalizeLineEndings(raw) <==>
      TargetKept(NormLines(raw)[0], uri, path, method_) && Agrees(NormLines(raw), order)
  {
    hide Agrees, Goes, SplitRaw, NormalizeLineEndings, Join, Find, ParseFrom, PatchFields, Filled, Splittable;
    hide FirstLine, TargetKept, PatchRaw, IsUpdated, Fields, Word;
    var lines, body := NormLines(raw), NormBody(raw);
    NormalisedIsMessage(raw);
    NormFilled(raw);
    var answer := Answer(method_, uri, OwnHeader(lines), body);
    var first := FirstLine(lines[0], method_, path, answer);
    FirstLineFree(raw, method_, path, answer);
    FirstKept(lines[0], uri, path, answer);
    PatchedRequest(raw, body, method_, path, answer, order);
    assert lines[0 := first] == [first] + lines[1..];
    var cur := PatchFields(lines[0 := first], OwnHeader(lines), order);
    assert Untouched(raw, uri, path, method_, order) == Message(cur, body);
    PatchedSplittable(lines, first, order);
    MessageInjective(cur, lines, body);
    LinesComeBack(lines, first, order);
  }

  lemma FirstKept(first: string, uri: string, path: string, answer: Answer)
    requires answer.uri == uri
    ensures FirstLine(first, answer.method_, path, answer) == first <==> TargetKept(first, uri, path, answer.method_)
  {
  }

  lemma FirstLineFree(raw: string, origMethod: string, origPath: string, answer: Answer)
    requires '\n' !in answer.uri && '\n' !in origPath && '\n' !in origMethod && '\n' !in answer.method_
    ensures NormLines(raw) != [] && '\n' !in FirstLine(NormLines(raw)[0], origMethod, origPath, answer)
  {
    hide NormLines, AllLines, NormalizeLineEndings, NormBody, SplitRaw;
    NormalisedIsMessage(raw);
    var line := NormLines(raw)[0];
    assert '\n' !in line;
  }

  // ---- the condition on the header alone ----

  /** Whichever key has the last word, it writes what is there. */
  ghost predicate AgreesInAnyOrder(lines: seq<string>) {
    forall m, k {:trigger First(lines, m), k in OwnHeader(lines)} ::
      First(lines, m) && k in OwnHeader(lines) && EqualFold(Name(lines, m), k) ==>
        Value(OwnHeader(lines), k) == FieldOf(lines[m]).value
  }

  lemma Listing(s: set<string>) returns (o: seq<string>)
    ensures forall k :: k in o <==> k in s
    decreases |s|
  {
    if s == {} {
      o := [];
    } else {
      var k :| k in s;
      o := Listing(s - {k});
      o := o + [k];
    }
  }

  /** Over all orders: the fields agree in every one if and only if every key of a name agrees. */
  lemma AnyOrderIff(lines: seq<string>)
    requires Filled(lines)
    ensures (forall order :: Goes(OwnHeader(lines), order) ==> Agrees(lines, order)) <==> AgreesInAnyOrder(lines)
  {
    hide FieldOf, ParseFrom, EqualFold, KeyFor, Value, Filled, FindField, Goes;
    var h := OwnHeader(lines);
    if forall order :: Goes(h, order) ==> Agrees(lines, order) {
      forall m, k | First(lines, m) && k in h && EqualFold(Name(lines, m), k)
        ensures Value(h, k) == FieldOf(lines[m]).value
      {
        var order := LastInOrder(lines, m, k);
        assert Agrees(lines, order);
      }
    }
    if AgreesInAnyOrder(lines) {
      forall order | Goes(h, order) ensures Agrees(lines, order) {
        forall m | First(lines, m) ensures Value(h, LastKey(h, order, Name(lines, m))) == FieldOf(lines[m]).value {
          LastKeyNames(lines, order, m);
        }
      }
    }
  }

  /** An order in which a given key of a field's name comes last. */
  lemma LastInOrder(lines: seq<string>, m: nat, k: string) returns (order: seq<string>)
    requires Filled(lines) && Header?(lines, m) && k in OwnHeader(lines) && EqualFold(Name(lines, m), k)
    ensures Goes(OwnHeader(lines), order) && LastKey(OwnHeader(lines), order, Name(lines, m)) == k
  {
    hide FieldOf, ParseFrom, EqualFold, Filled, Values, FindField, Canon;
    var h := OwnHeader(lines);
    var front := Listing(h.Keys - {k});
    order := front + [k];
    assert order[|front|] == k;
    var n := KeyHasLine(lines, k);
    KeyForMore(h, front, k, Name(lines, m));
  }

  /** With foldable names, and so with tokens, the fields agree if and only if their names are distinct. */
  lemma AgreesIffDistinct(lines: seq<string>, order: seq<string>)
    requires Filled(lines) && Foldable(lines) && Goes(OwnHeader(lines), order)
    ensures Agrees(lines, order) <==> Distinct(lines)
  {
    hide FieldOf, ParseFrom, EqualFold, Filled, Values, FindField, Canon, Goes, LastKey, Foldable, Value, Distinct;
    if Distinct(lines) {
      forall m | First(lines, m)
        ensures Value(OwnHeader(lines), LastKey(OwnHeader(lines), order, Name(lines, m))) == FieldOf(lines[m]).value
      {
        OwnKeyLast(lines, order, m);
        DistinctValue(lines, m);
      }
    } else {
      var m := Clash(lines);
      OwnKeyLast(lines, order, m);
    }
  }

  lemma OwnKeyLast(lines: seq<string>, order: seq<string>, m: nat)
    requires Filled(lines) && Foldable(lines) && Header?(lines, m) && Goes(OwnHeader(lines), order)
    ensures LastKey(OwnHeader(lines), order, Name(lines, m)) == Canon(Name(lines, m))
  {
    hide FieldOf, ParseFrom, Filled, Values, FindField, Canon, Goes, LastKey;
    LastKeyNames(lines, order, m);
    var k := LastKey(OwnHeader(lines), order, Name(lines, m));
    var n := KeyHasLine(lines, k);
    assert EqualFold(Name(lines, m), Name(lines, n));
  }

  lemma DistinctValue(lines: seq<string>, m: nat)
    requires Filled(lines) && Distinct(lines) && Header?(lines, m)
    ensures Value(OwnHeader(lines), Canon(Name(lines, m))) == FieldOf(lines[m]).value
  {
    hide FieldOf, ParseFrom, Filled, Values, Canon, Distinct, EqualFold;
    LineHasKey(lines, m);
    OneValue(lines, 1, m);
  }

  /** Of two fields of one name the first would get longer. */
  lemma Clash(lines: seq<string>) returns (m: nat)
    requires Filled(lines) && Foldable(lines) && !Distinct(lines)
    ensures First(lines, m) && Value(OwnHeader(lines), Canon(Name(lines, m))) != FieldOf(lines[m]).value
  {
    hide FieldOf, ParseFrom, Filled, Values, Canon, FindField;
    var a, b :| Header?(lines, a) && Header?(lines, b) && a != b && EqualFold(Name(lines, a), Name(lines, b));
    var i, j := if a < b then a else b, if a < b then b else a;
    FindReaches(lines, Name(lines, i), 1, i);
    m := FindField(lines, Name(lines, i), 1);
    assert SameNames(lines, lines) by { hide FieldOf; NamesSame(lines); }
    FindSame(lines, lines, Name(lines, i), Name(lines, m), 1);
    assert Canon(Name(lines, m)) == Canon(Name(lines, j));
    TwoValues(lines, 1, m, j);
    LineHasKey(lines, m);
    var at := HasValue(lines, 1, m);
    JoinIsLong(Values(lines, 1, Canon(Name(lines, m))), at);
  }

  lemma NamesSame(lines: seq<string>)
    requires Filled(lines)
    ensures SameNames(lines, lines)
  {
  }

  lemma FieldIs(name: string, value: string)
    requires ' ' !in name
    ensures FieldOf(Text(name, value)) == Field(name, value)
  {
    CutAfterFreePart(name, ": ", value);
    assert Text(name, value)[..|name|] == name && Text(name, value)[|name| + 2..] == value;
  }

  /** One name twice: a plugin that changes nothing changes the request, whatever it is and in any order. */
  lemma RepeatedNameExample(body: string, method_: string, path: string, order: seq<string>)
    requires '\n' !in path && '\n' !in method_
    requires Goes(OwnHeader(["GET / HTTP/1.1", "A: b", "A: c"]), order)
    ensures var raw := Message(["GET / HTTP/1.1", "A: b", "A: c"], body);
      NormalizeLineEndings(raw) == raw != Untouched(raw, path, path, method_, order)
  {
    hide FieldOf, Goes, Untouched, OwnHeader, Agrees, Foldable, NormLines, Message, EqualFold, NormalizeLineEndings;
    var lines := ["GET / HTTP/1.1", "A: b", "A: c"];
    var raw := Message(lines, body);
    LinesOfMessage(lines, body);
    NormaliseMessage(lines, body);
    RepeatedName(lines);
    AgreesIffDistinct(lines, order);
    UntouchedIff(raw, path, path, method_, order);
  }

  lemma RepeatedName(lines: seq<string>)
    requires lines == ["GET / HTTP/1.1", "A: b", "A: c"]
    ensures Foldable(lines) && !Distinct(lines)
  {
    hide FieldOf, Canon;
    FieldIs("A", "b");
    FieldIs("A", "c");
    assert Text("A", "b") == "A: b" && Text("A", "c") == "A: c";
    assert Header?(lines, 1) && Header?(lines, 2) && Name(lines, 1) == Name(lines, 2) == "A";
  }

  /** Names that differ ignoring case are enough, tokens or not. */
  lemma UntouchedDistinct(raw: string, uri: string, path: string, method_: string, order: seq<string>)
    requires '\n' !in uri && '\n' !in path && '\n' !in method_
    requires TargetKept(NormLines(raw)[0], uri, path, method_)
    requires Goes(OwnHeader(NormLines(raw)), order) && Distinct(NormLines(raw))
    ensures Untouched(raw, uri, path, method_, order) == NormalizeLineEndings(raw)
  {
    hide Untouched, Foldable, Distinct, Goes, TargetKept;
    NormFilled(raw);
    DistinctFoldable(NormLines(raw));
    AgreesIffDistinct(NormLines(raw), order);
    UntouchedIff(raw, uri, path, method_, order);
  }

  // ---- values of distinct and of repeated names ----

  lemma {:induction false} NoValues(lines: seq<string>, i: nat, m: nat)
    requires Filled(lines) && Distinct(lines) && Header?(lines, m) && m < i
    ensures Values(lines, i, Canon(Name(lines, m))) == []
    decreases |lines| - i
  {
    hide FieldOf, Canon;
    if i < |lines| {
      NoValues(lines, i + 1, m);
      if Header?(lines, i) { SameCanon(Name(lines, i), Name(lines, m)); }
    }
  }

  lemma SameCanon(a: string, b: string)
    ensures Canon(a) == Canon(b) ==> EqualFold(a, b)
  {
    CanonFold(a);
    CanonFold(b);
  }

  /** With distinct names every field has its own value in the map, and that value only. */
  lemma {:induction false} OneValue(lines: seq<string>, i: nat, m: nat)
    requires Filled(lines) && Distinct(lines) && Header?(lines, m) && 0 < i <= m
    ensures Values(lines, i, Canon(Name(lines, m))) == [FieldOf(lines[m]).value]
    decreases m - i
  {
    hide FieldOf, Canon;
    if i < m {
      OneValue(lines, i + 1, m);
      if Header?(lines, i) { SameCanon(Name(lines, i), Name(lines, m)); }
    } else {
      NoValues(lines, m + 1, m);
    }
  }

  lemma {:induction false} JoinIsLong(vs: seq<string>, k: nat)
    requires k < |vs|
    ensures |Join(vs, ", ")| >= |vs[k]| && (|vs| > 1 ==> |Join(vs, ", ")| > |vs[k]|)
  {
    if |vs| > 1 && k > 0 {
      JoinIsLong(vs[1..], k - 1);
    }
  }

  lemma {:induction false} HasValue(lines: seq<string>, i: nat, m: nat) returns (at: nat)
    requires Filled(lines) && Header?(lines, m) && 0 < i <= m
    ensures var vs := Values(lines, i, Canon(Name(lines, m))); at < |vs| && vs[at] == FieldOf(lines[m]).value
    decreases m - i
  {
    hide FieldOf, Canon;
    if i == m {
      at := 0;
    } else {
      at := HasValue(lines, i + 1, m);
      if FieldOf(lines[i]).Field? && Canon(FieldOf(lines[i]).name) == Canon(Name(lines, m)) {
        at := at + 1;
      }
    }
  }

  lemma {:induction false} TwoValues(lines: seq<string>, i: nat, m: nat, n: nat)
    requires Filled(lines) && Header?(lines, m) && Header?(lines, n) && 0 < i <= m < n
    requires Canon(Name(lines, m)) == Canon(Name(lines, n))
    ensures |Values(lines, i, Canon(Name(lines, m)))| > 1
    decreases m - i
  {
    hide FieldOf, Canon;
    if i == m {
      var at := HasValue(lines, m + 1, n);
    } else {
      TwoValues(lines, i + 1, m, n);
    }
  }

  lemma FoldSymmetric(a: string, b: string)
    ensures EqualFold(a, b) <==> EqualFold(b, a)
  {
  }
}
