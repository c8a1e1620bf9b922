/** What patchRaw writes when the plugin did change something: for every key, the first header of that name gets
    the new value in its place, with its own spelling of the name; keys without one are appended; every other
    line stays. */
module RequestChanges {
  import opened Strings
  import opened Words
  import opened RawRequest
  import opened RequestPatch

  predicate Names(h: Header, key: string, name: string) {
    Get(h, key) != [] && EqualFold(name, key)
  }

  /** The key that has something to say about a name, or -1. */
  function KeyFor(h: Header, keys: seq<string>, name: string): (r: int)
    ensures -1 <= r < |keys|
    ensures r >= 0 ==> Names(h, keys[r], name)
    ensures r < 0 ==> forall i :: 0 <= i < |keys| ==> !Names(h, keys[i], name)
  {
    if keys == [] then -1
    else if Names(h, keys[|keys| - 1], name) then |keys| - 1
    else KeyFor(h, keys[..|keys| - 1], name)
  }

  function Value(h: Header, key: string): string { Join(Get(h, key), ", ") }

  /** The value written for a key: its values with a comma and a blank between them. */
  lemma ValueMeans(h: Header, key: string)
    requires key in h && h[key] != [] && Free(h[key], ' ')
    ensures Split(Value(h, key), ", ") == h[key] && (|h[key]| == 1 ==> Value(h, key) == h[key][0])
  {
    SplitJoin(h[key], ", ");
  }

  /** The line in place of line `m`. */
  function Updated(lines: seq<string>, h: Header, keys: seq<string>, m: nat): string
    requires m < |lines|
  {
    if First(lines, m) && KeyFor(h, keys, Name(lines, m)) >= 0
    then Text(Name(lines, m), Value(h, keys[KeyFor(h, keys, Name(lines, m))]))
    else lines[m]
  }

  /** A key that no line has: its first appended line is rewritten, or a new one appended. */
  function Appended(e: seq<string>, key: string, value: string): seq<string> {
    var i := FindField(e, key, 0);
    if i >= 0 then e[i := Text(FieldOf(e[i]).name, value)] else e + [Text(key, value)]
  }

  predicate Missing(lines: seq<string>, h: Header, key: string) {
    Get(h, key) != [] && FindField(lines, key, 1) < 0
  }

  /** The lines appended for keys that no line has. */
  function Extra(lines: seq<string>, h: Header, keys: seq<string>): seq<string> {
    if keys == [] then []
    else
      var key, e := keys[|keys| - 1], Extra(lines, h, keys[..|keys| - 1]);
      if Missing(lines, h, key) then Appended(e, key, Value(h, key)) else e
  }

  ghost predicate IsUpdated(cur: seq<string>, lines: seq<string>, h: Header, keys: seq<string>) {
    && |cur| == |lines| + |Extra(lines, h, keys)| && cur[|lines|..] == Extra(lines, h, keys)
    && forall m: nat :: m < |lines| ==> cur[m] == Updated(lines, h, keys, m)
  }

  // ---- where a key is found: among the lines, or else among those appended ----

  ghost predicate NoneEmpty(e: seq<string>) {
    forall i :: 0 <= i < |e| ==> e[i] != ""
  }

  lemma TextFilled(key: string, value: string)
    ensures Text(key, value) != ""
  {
  }

  lemma {:induction false} ExtraFilled(lines: seq<string>, h: Header, keys: seq<string>)
    ensures NoneEmpty(Extra(lines, h, keys))
    decreases |keys|
  {
    hide FieldOf, FindField, Value, Text, Missing;
    if keys != [] {
      var init, key := keys[..|keys| - 1], keys[|keys| - 1];
      ExtraFilled(lines, h, init);
      var e := Extra(lines, h, init);
      var i := FindField(e, key, 0);
      TextFilled(key, Value(h, key));
      if i >= 0 { TextFilled(FieldOf(e[i]).name, Value(h, key)); }
    }
  }

  lemma {:induction false} FindShift(a: seq<string>, b: seq<string>, key: string, j: nat)
    requires NoneEmpty(b) && j <= |b|
    ensures FindField(a + b, key, |a| + j) == if FindField(b, key, j) >= 0 then |a| + FindField(b, key, j) else -1
    decreases |b| - j
  {
    hide FieldOf, EqualFold;
    if j < |b| {
      assert (a + b)[|a| + j] == b[j];
      FindShift(a, b, key, j + 1);
    }
  }

  lemma {:induction false} FindInTwo(a: seq<string>, b: seq<string>, key: string, i: nat)
    requires 0 < i <= |a| && Filled(a) && NoneEmpty(b)
    ensures FindField(a + b, key, i) ==
      if FindField(a, key, i) >= 0 then FindField(a, key, i)
      else if FindField(b, key, 0) >= 0 then |a| + FindField(b, key, 0) else -1
    decreases |a| - i
  {
    hide FieldOf, EqualFold;
    if i < |a| {
      assert (a + b)[i] == a[i];
      FindInTwo(a, b, key, i + 1);
    } else {
      FindShift(a, b, key, 0);
    }
  }

  lemma UpdatedNames(cur: seq<string>, lines: seq<string>, h: Header, keys: seq<string>)
    requires Filled(lines) && IsUpdated(cur, lines, h, keys)
    ensures SameNames(cur[..|lines|], lines)
  {
    hide FieldOf, FindField, KeyFor, Value, Extra;
    var a := cur[..|lines|];
    forall i | 0 < i < |lines|
      ensures a[i] != "" && FieldOf(a[i]).Field? == FieldOf(lines[i]).Field?
      ensures FieldOf(a[i]).Field? ==> FieldOf(a[i]).name == FieldOf(lines[i]).name
    {
      assert a[i] == cur[i] == Updated(lines, h, keys, i);
      if FieldOf(lines[i]).Field? && KeyFor(h, keys, Name(lines, i)) >= 0 {
        TextField(lines[i], Value(h, keys[KeyFor(h, keys, Name(lines, i))]));
      }
    }
  }

  lemma FoundInUpdated(cur: seq<string>, lines: seq<string>, h: Header, keys: seq<string>, key: string)
    requires lines != [] && Filled(lines) && IsUpdated(cur, lines, h, keys)
    ensures var i, j := FindField(lines, key, 1), FindField(Extra(lines, h, keys), key, 0);
      FindField(cur, key, 1) == if i >= 0 then i else if j >= 0 then |lines| + j else -1
  {
    hide FieldOf, FindField, EqualFold, Extra, Updated;
    var a, b := cur[..|lines|], cur[|lines|..];
    ExtraFilled(lines, h, keys);
    UpdatedNames(cur, lines, h, keys);
    FindInTwo(a, b, key, 1);
    assert cur == a + b;
    SameFold(key);
    FindSame(a, lines, key, key, 1);
  }

  // ---- one key ----

  lemma KeyForMore(h: Header, keys: seq<string>, key: string, name: string)
    ensures KeyFor(h, keys + [key], name) == if Names(h, key, name) then |keys| else KeyFor(h, keys, name)
    ensures Names(h, key, name) ==> (keys + [key])[KeyFor(h, keys + [key], name)] == key
    ensures !Names(h, key, name) && KeyFor(h, keys, name) >= 0 ==>
      (keys + [key])[KeyFor(h, keys + [key], name)] == keys[KeyFor(h, keys, name)]
  {
    assert (keys + [key])[..|keys|] == keys;
  }

  /** The key changes the first line of its name and no other. */
  lemma UpdatedMore(lines: seq<string>, h: Header, keys: seq<string>, key: string, m: nat)
    requires Filled(lines) && m < |lines|
    ensures Updated(lines, h, keys + [key], m) ==
      if Get(h, key) != [] && FindField(lines, key, 1) == m
      then Text(Name(lines, m), Value(h, key)) else Updated(lines, h, keys, m)
    ensures FindField(lines, key, 1) == m ==> Header?(lines, m)
  {
    hide FieldOf, FindField, EqualFold, Value, KeyFor;
    if Header?(lines, m) {
      KeyForMore(h, keys, key, Name(lines, m));
      FirstOfName(lines, key, m);
    }
    FoundIsHeader(lines, key);
  }

  lemma FoundIsHeader(lines: seq<string>, key: string)
    ensures FindField(lines, key, 1) >= 0 ==> Header?(lines, FindField(lines, key, 1))
  {
  }

  lemma FirstOfName(lines: seq<string>, key: string, m: nat)
    requires Filled(lines) && Header?(lines, m)
    ensures FindField(lines, key, 1) == m <==> First(lines, m) && EqualFold(Name(lines, m), key)
  {
    hide FieldOf, FindField;
    assert SameNames(lines, lines);
    if FindField(lines, key, 1) == m {
      FindSame(lines, lines, key, Name(lines, m), 1);
    }
    if First(lines, m) && EqualFold(Name(lines, m), key) {
      FindSame(lines, lines, Name(lines, m), key, 1);
    }
  }

  lemma ExtraMore(lines: seq<string>, h: Header, keys: seq<string>, key: string)
    ensures var e := Extra(lines, h, keys);
      Extra(lines, h, keys + [key]) == if Missing(lines, h, key) then Appended(e, key, Value(h, key)) else e
  {
    assert (keys + [key])[..|keys|] == keys;
  }

  lemma OneMore(cur: seq<string>, lines: seq<string>, h: Header, keys: seq<string>, key: string)
    requires lines != [] && Filled(lines) && IsUpdated(cur, lines, h, keys)
    ensures IsUpdated(PatchField(cur, key, Get(h, key)), lines, h, keys + [key])
  {
    hide FieldOf, FindField, EqualFold, KeyFor, Join, Updated, Extra, Text;
    var now := PatchField(cur, key, Get(h, key));
    ExtraMore(lines, h, keys, key);
    OneMoreTail(cur, lines, h, keys, key);
    forall m: nat | m < |lines| ensures now[m] == Updated(lines, h, keys + [key], m) {
      UpdatedMore(lines, h, keys, key, m);
    }
  }

  /** The step on lines: one line rewritten, or one appended. */
  lemma OneMoreTail(cur: seq<string>, lines: seq<string>, h: Header, keys: seq<string>, key: string)
    requires lines != [] && Filled(lines) && IsUpdated(cur, lines, h, keys)
    ensures var now, e, i := PatchField(cur, key, Get(h, key)), Extra(lines, h, keys), FindField(lines, key, 1);
      && |now| >= |lines|
      && now[|lines|..] == (if Missing(lines, h, key) then Appended(e, key, Value(h, key)) else e)
      && (i >= 0 ==> Header?(lines, i))
      && forall m: nat :: m < |lines| ==>
           now[m] == if Get(h, key) != [] && i == m then Text(Name(lines, i), Value(h, key)) else cur[m]
  {
    hide FieldOf, FindField, EqualFold, KeyFor, Updated, Extra, Join, Text;
    var i, e := FindField(lines, key, 1), Extra(lines, h, keys);
    FoundInUpdated(cur, lines, h, keys, key);
    FoundIsHeader(lines, key);
    assert cur == cur[..|lines|] + e;
    if i >= 0 {
      UpdatedNames(cur, lines, h, keys);
      assert Name(cur[..|lines|], i) == Name(lines, i) && cur[..|lines|][i] == cur[i];
    } else if FindField(e, key, 0) >= 0 {
      assert cur[|lines| + FindField(e, key, 0)] == e[FindField(e, key, 0)];
    }
  }

  lemma {:induction false} AllChanges(cur: seq<string>, lines: seq<string>, h: Header, keys: seq<string>,
    order: seq<string>)
    requires lines != [] && Filled(lines) && IsUpdated(cur, lines, h, keys)
    ensures IsUpdated(PatchFields(cur, h, order), lines, h, keys + order)
    decreases |order|
  {
    hide FieldOf, FindField, EqualFold, IsUpdated, PatchField, Filled;
    if order == [] {
      assert keys + order == keys;
    } else {
      assert keys + order == (keys + [order[0]]) + order[1..];
      OneMore(cur, lines, h, keys, order[0]);
      AllChanges(PatchField(cur, order[0], Get(h, order[0])), lines, h, keys + [order[0]], order[1..]);
    }
  }

  /** Whatever the map holds and in whatever order it is gone through: the first header of each name has the
      value of the last key that names it and keeps its place and spelling; keys without a header are appended,
      or rewrite what an earlier key of their name appended; all other lines are as they were. */
  lemma PatchedInPlace(lines: seq<string>, h: Header, order: seq<string>)
    requires lines != [] && Filled(lines)
    ensures IsUpdated(PatchFields(lines, h, order), lines, h, order)
  {
    hide FieldOf, FindField, Filled;
    assert [] + order == order;
    NothingYet(lines, h);
    AllChanges(lines, lines, h, [], order);
  }

  lemma NothingYet(lines: seq<string>, h: Header)
    ensures IsUpdated(lines, lines, h, [])
  {
    hide FieldOf, FindField;
    assert lines[|lines|..] == [];
  }

  // ---- keys as a header map has them ----

  /** Tokens that differ ignoring case. */
  ghost predicate KeysOk(keys: seq<string>) {
    && (forall i :: 0 <= i < |keys| ==> Token(keys[i]))
    && (forall i, j :: 0 <= i < j < |keys| ==> !EqualFold(keys[i], keys[j]))
  }

  lemma TokenField(key: string, value: string)
    requires Token(key)
    ensures FieldOf(Text(key, value)) == Field(key, value)
  {
    var t := Text(key, value);
    assert t[|key|..|key| + 2] == ": ";
    forall i: nat | i < |key| ensures !At(t, ": ", i) {
      assert t[i] == key[i] && TokenChar(key[i]);
      assert t[i..i + 2][0] == t[i];
    }
    FindIs(t, ": ", |key|);
    assert t[..|key|] == key && t[|key| + 2..] == value;
  }

  /** Line `i` of those appended is that of a key without a header. */
  ghost predicate FromKey(line: string, lines: seq<string>, h: Header, keys: seq<string>) {
    exists i :: 0 <= i < |keys| && Missing(lines, h, keys[i]) && line == Text(keys[i], Value(h, keys[i]))
  }

  lemma KeysPrefix(a: seq<string>, b: seq<string>)
    requires KeysOk(a + b)
    ensures KeysOk(a)
  {
    hide EqualFold, Token;
    assert forall i :: 0 <= i < |a| ==> a[i] == (a + b)[i];
  }

  ghost predicate NamedBy(e: seq<string>, keys: seq<string>) {
    forall j :: 0 <= j < |e| ==> FieldOf(e[j]).Field? && FieldOf(e[j]).name in keys
  }

  ghost predicate NoneTwice(e: seq<string>) {
    forall i, j :: 0 <= i < j < |e| ==> e[i] != e[j]
  }

  /** A key equal to none before it is not found among the lines they appended. */
  lemma {:induction false} NewKeyNotFound(e: seq<string>, keys: seq<string>, key: string, i: nat)
    requires KeysOk(keys + [key]) && NamedBy(e, keys)
    ensures FindField(e, key, i) == -1
    decreases |e| - i
  {
    hide FieldOf, EqualFold, Token;
    if i < |e| {
      NewKeyNotFound(e, keys, key, i + 1);
      var k :| 0 <= k < |keys| && keys[k] == FieldOf(e[i]).name;
      assert (keys + [key])[k] == keys[k] && (keys + [key])[|keys|] == key;
    }
  }

  /** With such keys, one line is appended for each key that has no header, in order. */
  lemma {:induction false} ExtraOfKeys(lines: seq<string>, h: Header, keys: seq<string>)
    requires KeysOk(keys)
    ensures var e := Extra(lines, h, keys);
      && NamedBy(e, keys) && NoneTwice(e)
      && (forall x :: x in e <==> FromKey(x, lines, h, keys))
    decreases |keys|
  {
    hide FieldOf, FindField, EqualFold, Token, Value, Text, Missing;
    if keys != [] {
      var init, key := keys[..|keys| - 1], keys[|keys| - 1];
      assert keys == init + [key];
      KeysPrefix(init, [key]);
      ExtraOfKeys(lines, h, init);
      var e := Extra(lines, h, init);
      NewKeyNotFound(e, init, key, 0);
      assert Token(key) by { hide *; LastToken(init, key); }
      TokenField(key, Value(h, key));
      LastIsNew(init, key);
      forall x ensures FromKey(x, lines, h, keys) <==>
        FromKey(x, lines, h, init) || (Missing(lines, h, key) && x == Text(key, Value(h, key)))
      {
        FromMore(x, lines, h, init, key);
      }
    }
  }

  lemma LastToken(init: seq<string>, key: string)
    requires KeysOk(init + [key])
    ensures Token(key)
  {
    assert (init + [key])[|init|] == key;
  }

  lemma LastIsNew(init: seq<string>, key: string)
    requires KeysOk(init + [key])
    ensures key !in init
  {
    hide Token, EqualFold;
    SameFold(key);
    forall k | 0 <= k < |init| ensures init[k] != key {
      assert (init + [key])[k] == init[k] && (init + [key])[|init|] == key;
    }
  }

  lemma FromMore(x: string, lines: seq<string>, h: Header, init: seq<string>, key: string)
    ensures FromKey(x, lines, h, init + [key]) <==>
      FromKey(x, lines, h, init) || (Missing(lines, h, key) && x == Text(key, Value(h, key)))
  {
    hide Missing, Text, Value;
    var keys := init + [key];
    if FromKey(x, lines, h, init) {
      var i :| 0 <= i < |init| && Missing(lines, h, init[i]) && x == Text(init[i], Value(h, init[i]));
      assert keys[i] == init[i];
    }
    assert keys[|init|] == key;
    assert forall i :: 0 <= i < |init| ==> keys[i] == init[i];
  }

  lemma SameMultiset(a: seq<string>, b: seq<string>)
    requires NoneTwice(a) && NoneTwice(b)
    requires forall x :: x in a <==> x in b
    ensures multiset(a) == multiset(b)
  {
    forall x ensures multiset(a)[x] == multiset(b)[x] {
      Once(a, x);
      Once(b, x);
    }
  }

  lemma {:induction false} Once(a: seq<string>, x: string)
    requires NoneTwice(a)
    ensures multiset(a)[x] == if x in a then 1 else 0
  {
    if a != [] {
      Once(a[1..], x);
      assert a == [a[0]] + a[1..];
      assert a[0] !in a[1..];
    }
  }

  /** With such keys the order of the map matters for the order of the appended lines only: every line of the
      request becomes the same, and the same lines are appended. */
  lemma OrderDoesNotMatter(lines: seq<string>, h: Header, order: seq<string>, other: seq<string>)
    requires lines != [] && Filled(lines) && KeysOk(order) && KeysOk(other)
    requires forall k :: k in order <==> k in other
    ensures var a, b := PatchFields(lines, h, order), PatchFields(lines, h, other);
      && |a| >= |lines| && |b| >= |lines|
      && a[..|lines|] == b[..|lines|] && multiset(a[|lines|..]) == multiset(b[|lines|..])
  {
    hide FieldOf, FindField, EqualFold, PatchFields, Token, Value, Extra, KeysOk, First, Filled, Missing, Text;
    PatchedInPlace(lines, h, order);
    PatchedInPlace(lines, h, other);
    forall m: nat | m < |lines| ensures Updated(lines, h, order, m) == Updated(lines, h, other, m) {
      if First(lines, m) {
        FirstIsHeader(lines, m);
        SameKey(h, order, other, Name(lines, m));
      }
    }
    ExtraOfKeys(lines, h, order);
    ExtraOfKeys(lines, h, other);
    forall x ensures FromKey(x, lines, h, order) <==> FromKey(x, lines, h, other) {
      if FromKey(x, lines, h, order) { KeyMoves(x, lines, h, order, other); }
      if FromKey(x, lines, h, other) { KeyMoves(x, lines, h, other, order); }
    }
    SameMultiset(Extra(lines, h, order), Extra(lines, h, other));
  }

  lemma FirstIsHeader(lines: seq<string>, m: int)
    requires First(lines, m)
    ensures Header?(lines, m)
  {
  }

  lemma KeyMoves(x: string, lines: seq<string>, h: Header, a: seq<string>, b: seq<string>)
    requires FromKey(x, lines, h, a) && forall k :: k in a ==> k in b
    ensures FromKey(x, lines, h, b)
  {
    hide Missing, Text, Value;
    var i :| 0 <= i < |a| && Missing(lines, h, a[i]) && x == Text(a[i], Value(h, a[i]));
    assert a[i] in b;
    var j :| 0 <= j < |b| && b[j] == a[i];
  }

  lemma SameKey(h: Header, order: seq<string>, other: seq<string>, name: string)
    requires KeysOk(order) && KeysOk(other) && forall k :: k in order <==> k in other
    ensures KeyFor(h, order, name) >= 0 <==> KeyFor(h, other, name) >= 0
    ensures KeyFor(h, order, name) >= 0 ==> order[KeyFor(h, order, name)] == other[KeyFor(h, other, name)]
  {
    hide KeysOk, KeyFor;
    if KeyFor(h, order, name) >= 0 { KeyElsewhere(h, order, other, name); }
    if KeyFor(h, other, name) >= 0 { KeyElsewhere(h, other, order, name); }
  }

  lemma KeyElsewhere(h: Header, order: seq<string>, other: seq<string>, name: string)
    requires KeysOk(other) && (forall k :: k in order ==> k in other) && KeyFor(h, order, name) >= 0
    ensures KeyFor(h, other, name) >= 0 && order[KeyFor(h, order, name)] == other[KeyFor(h, other, name)]
  {
    hide Token;
    var a, b := KeyFor(h, order, name), KeyFor(h, other, name);
    assert order[a] in other;
    var j :| 0 <= j < |other| && other[j] == order[a];
    assert Names(h, other[j], name);
    assert EqualFold(other[j], other[b]) && EqualFold(other[b], other[j]);
  }

  // ---- the whole request ----

  function NewMethod(origMethod: string, answer: Answer): string {
    if answer.method_ == "" then origMethod else answer.method_
  }

  function NewTarget(origPath: string, answer: Answer): string {
    if answer.uri == "" || answer.uri == "?" then origPath else answer.uri
  }

  /** The request line: the plugin's method and target when they differ from the original ones, else as it was. */
  function FirstLine(first: string, origMethod: string, origPath: string, answer: Answer): string {
    var m, p := NewMethod(origMethod, answer), NewTarget(origPath, answer);
    if m == origMethod && p == origPath then first else m + " " + p + " HTTP/1.1"
  }

  predicate Word(s: string) { s != "" && NoSpace(s) }

  /** Whatever the plugin answers: the request line, then the headers as above, then the plugin's body if it
      changed that. A new request line is read back as the new method and target if and only if both are words. */
  lemma PatchedRequest(raw: string, body: string, origMethod: string, origPath: string, answer: Answer,
    order: seq<string>)
    ensures var n := NormalizeLineEndings(raw);
      var lines := [FirstLine(NormLines(raw)[0], origMethod, origPath, answer)] + NormLines(raw)[1..];
      var cur := PatchFields(lines, answer.header, order);
      && IsUpdated(cur, lines, answer.header, order) && cur != [] && cur[0] == lines[0]
      && PatchRaw(n, SplitRaw(n).header, body, origMethod, origPath, answer, order)
         == Message(cur, if answer.body != body then answer.body else NormBody(raw))
      && var m, p := NewMethod(origMethod, answer), NewTarget(origPath, answer);
         m != origMethod || p != origPath ==> (Fields(cur[0]) == [m, p, "HTTP/1.1"] <==> Word(m) && Word(p))
  {
    hide FieldOf, FindField, PatchFields, IsUpdated, Find, SplitRaw, NormalizeLineEndings, Join, Fields, Word;
    ReadBackIff(NewMethod(origMethod, answer), NewTarget(origPath, answer));
    NormFilled(raw);
    var l := NormLines(raw);
    var first := FirstLine(l[0], origMethod, origPath, answer);
    var lines := [first] + l[1..];
    assert l[0 := first] == lines && l[0 := l[0]] == l;
    PatchedInPlace(lines, answer.header, order);
    FirstUntouched(PatchFields(lines, answer.header, order), lines, answer.header, order);
  }

  lemma ReadBackIff(method_: string, target: string)
    ensures Fields(method_ + " " + target + " HTTP/1.1") == [method_, target, "HTTP/1.1"] <==>
      Word(method_) && Word(target)
  {
    hide Fields;
    var line := method_ + " " + target + " HTTP/1.1";
    var f := Fields(line);
    assert f == [method_, target, "HTTP/1.1"] ==> Word(f[0]) && Word(f[1]);
    if Word(method_) && Word(target) {
      assert NoSpace("HTTP/1.1");
      ThreeFields(method_, target, "HTTP/1.1");
      assert line == method_ + " " + target + " " + "HTTP/1.1";
    }
  }

  lemma FirstUntouched(cur: seq<string>, lines: seq<string>, h: Header, order: seq<string>)
    requires lines != [] && IsUpdated(cur, lines, h, order)
    ensures cur != [] && cur[0] == lines[0]
  {
    hide FieldOf, FindField;
    assert cur[0] == Updated(lines, h, order, 0);
  }

  lemma NormFilled(raw: string)
    ensures Filled(NormLines(raw)) && NormLines(raw) != []
    ensures NormalizeLineEndings(raw) == Join(NormLines(raw), CRLF) + BLANK + NormBody(raw)
    ensures Split(SplitRaw(NormalizeLineEndings(raw)).header, CRLF) == NormLines(raw)
  {
    NormalisedIsMessage(raw);
  }
}
