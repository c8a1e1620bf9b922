/** Writing a plugin's changes back into the raw request text. Headers go through a map from canonical names
    to values and come back in any order; a plugin that changed nothing must leave the text alone. */
module RequestPatch {
  import opened Strings
  import opened Words
  import opened Lists
  import opened RawRequest

  // ---- header fields ----

  datatype Field = Field(name: string, value: string) | NoField

  /** strings.SplitN(line, ": ", 2) when it gives two parts. */
  function FieldOf(line: string): Field {
    var i := Find(line, ": ");
    if i < 0 then NoField else Field(line[..i], line[i + 2..])
  }

  function Text(name: string, value: string): string { name + ": " + value }

  /** The characters of a header name: a token in the sense of RFC 9110, section 5.6.2. */
  predicate TokenChar(c: char) {
    'a' <= c <= 'z' || 'A' <= c <= 'Z' || '0' <= c <= '9' || c in "!#$%&'*+-.^_`|~"
  }

  predicate Token(s: string) { forall i :: 0 <= i < |s| ==> TokenChar(s[i]) }

  function Capitals(s: string, upper: bool): (r: string)
    ensures |r| == |s|
  {
    if s == "" then ""
    else [if upper then UpperChar(s[0]) else LowerChar(s[0])] + Capitals(s[1..], s[0] == '-')
  }

  /** textproto.CanonicalMIMEHeaderKey; a name that is no token stays as it is. */
  function Canon(key: string): string { if Token(key) then Capitals(key, true) else key }

  // ---- the header map ----

  type Header = map<string, seq<string>>

  function Get(h: Header, k: string): seq<string> { if k in h then h[k] else [] }

  function Add(h: Header, k: string, v: string): Header { h[k := Get(h, k) + [v]] }

  /** ParseRawHeaders over the lines from `i` on. */
  function ParseFrom(lines: seq<string>, i: nat, h: Header): Header
    decreases |lines| - i
  {
    if i >= |lines| || lines[i] == "" then h
    else
      var f := FieldOf(lines[i]);
      ParseFrom(lines, i + 1, if f.Field? then Add(h, Canon(f.name), f.value) else h)
  }

  method ParseRawHeaders(raw: string) returns (headers: Header)
    ensures headers == ParseFrom(Split(raw, CRLF), 1, map[])
  {
    hide FieldOf, Canon, Split;
    headers := map[];
    var lines := Split(raw, CRLF);
    var i := 1;
    while i < |lines|
      invariant 1 <= i
      invariant ParseFrom(lines, i, headers) == ParseFrom(lines, 1, map[])
    {
      if lines[i] == "" {
        break;
      }
      var f := FieldOf(lines[i]);
      if f.Field? {
        headers := Add(headers, Canon(f.name), f.value);
      }
      i := i + 1;
    }
  }

  /** The values of one canonical name, in order. */
  function Values(lines: seq<string>, i: nat, k: string): seq<string>
    decreases |lines| - i
  {
    if i >= |lines| || lines[i] == "" then []
    else
      var f := FieldOf(lines[i]);
      if f.Field? then If(Canon(f.name) == k, f.value) + Values(lines, i + 1, k) else Values(lines, i + 1, k)
  }

  lemma GetAdd(h: Header, k: string, v: string, other: string)
    ensures Get(Add(h, k, v), other) == Get(h, other) + If(k == other, v)
    ensures other in Add(h, k, v) <==> other in h || other == k
    ensures (other in h ==> h[other] != []) ==> other in Add(h, k, v) ==> Add(h, k, v)[other] != []
  {
    assert Get(h, other) + [] == Get(h, other);
  }

  /** The map collects exactly the values of each name. */
  lemma {:induction false} ParsedValues(lines: seq<string>, i: nat, h: Header, k: string)
    requires k in h ==> h[k] != []
    ensures Get(ParseFrom(lines, i, h), k) == Get(h, k) + Values(lines, i, k)
    ensures k in ParseFrom(lines, i, h) <==> Get(h, k) + Values(lines, i, k) != []
    decreases |lines| - i
  {
    hide FieldOf, Canon, Add;
    assert Get(h, k) + [] == Get(h, k);
    if i < |lines| && lines[i] != "" {
      var f := FieldOf(lines[i]);
      var rest := Values(lines, i + 1, k);
      if f.Field? {
        GetAdd(h, Canon(f.name), f.value, k);
        ParsedValues(lines, i + 1, Add(h, Canon(f.name), f.value), k);
        Regroup(Get(h, k), If(Canon(f.name) == k, f.value), rest);
      } else {
        ParsedValues(lines, i + 1, h, k);
      }
    }
  }

  // ---- patching ----

  /** The first line from `i` on with the given name, or -1. */
  function FindField(lines: seq<string>, key: string, i: nat): (r: int)
    ensures r >= 0 ==> i <= r < |lines| && FieldOf(lines[r]).Field? && EqualFold(FieldOf(lines[r]).name, key)
    decreases |lines| - i
  {
    if i >= |lines| || lines[i] == "" then -1
    else if FieldOf(lines[i]).Field? && EqualFold(FieldOf(lines[i]).name, key) then i
    else FindField(lines, key, i + 1)
  }

  function PatchField(lines: seq<string>, key: string, values: seq<string>): seq<string> {
    if values == [] then lines
    else
      var value := Join(values, ", ");
      var i := FindField(lines, key, 1);
      if i >= 0 then lines[i := Text(FieldOf(lines[i]).name, value)] else lines + [Text(key, value)]
  }

  /** The plugin's headers, in the order the map's iteration gives them. */
  function PatchFields(lines: seq<string>, h: Header, order: seq<string>): seq<string>
    decreases |order|
  {
    if order == [] then lines else PatchFields(PatchField(lines, order[0], Get(h, order[0])), h, order[1..])
  }

  datatype Answer = Answer(method_: string, uri: string, header: Header, body: string)

  function PatchRaw(raw: string, headerSection: string, origBody: string, origMethod: string, origPath: string,
                    answer: Answer, order: seq<string>): string
  {
    var lines := Split(headerSection, CRLF);
    var m := if answer.method_ == "" then origMethod else answer.method_;
    var p := if answer.uri == "" || answer.uri == "?" then origPath else answer.uri;
    var lines1 := if m != origMethod || p != origPath then lines[0 := m + " " + p + " HTTP/1.1"] else lines;
    Join(PatchFields(lines1, answer.header, order), CRLF) + BLANK
    + (if answer.body != origBody then answer.body else SplitRaw(raw).body)
  }

  /** patchRaw with its loops. */
  method PatchRawLoop(raw: string, headerSection: string, origBody: string, origMethod: string, origPath: string,
                      answer: Answer, order: seq<string>) returns (r: string)
    ensures r == PatchRaw(raw, headerSection, origBody, origMethod, origPath, answer, order)
  {
    hide Find, Join, PatchFields, SplitRaw;
    var lines := Split(headerSection, CRLF);
    var newMethod, newPath := answer.method_, answer.uri;
    if newMethod == "" {
      newMethod := origMethod;
    }
    if newPath == "" || newPath == "?" {
      newPath := origPath;
    }
    if newMethod != origMethod || newPath != origPath {
      lines := lines[0 := newMethod + " " + newPath + " HTTP/1.1"];
    }
    lines := PatchLoop(lines, answer.header, order);
    var finalBody := SplitRaw(raw).body;
    if answer.body != origBody {
      finalBody := answer.body;
    }
    r := Join(lines, CRLF) + BLANK + finalBody;
  }

  method PatchLoop(given: seq<string>, h: Header, order: seq<string>) returns (lines: seq<string>)
    ensures lines == PatchFields(given, h, order)
  {
    hide FieldOf, EqualFold, Join, FindField;
    lines := given;
    assert order[0..] == order;
    for n := 0 to |order|
      invariant PatchFields(lines, h, order[n..]) == PatchFields(given, h, order)
    {
      var key, values := order[n], Get(h, order[n]);
      assert order[n..][1..] == order[n + 1..];
      if |values| == 0 {
        continue;
      }
      var value := Join(values, ", ");
      var found, i := FindLoop(lines, key);
      if found {
        lines := lines[i := Text(FieldOf(lines[i]).name, value)];
      } else {
        lines := lines + [Text(key, value)];
      }
    }
  }

  method FindLoop(lines: seq<string>, key: string) returns (found: bool, i: nat)
    ensures found <==> FindField(lines, key, 1) >= 0
    ensures found ==> i == FindField(lines, key, 1) && i < |lines| && FieldOf(lines[i]).Field?
  {
    hide FieldOf, EqualFold;
    i := 1;
    while i < |lines|
      invariant FindField(lines, key, i) == FindField(lines, key, 1)
    {
      if lines[i] == "" {
        break;
      }
      if FieldOf(lines[i]).Field? && EqualFold(FieldOf(lines[i]).name, key) {
        return true, i;
      }
      i := i + 1;
    }
    return false, i;
  }

  // ---- header names ----

  predicate Header?(lines: seq<string>, i: int) {
    0 < i < |lines| && FieldOf(lines[i]).Field?
  }

  function Name(lines: seq<string>, i: int): string
    requires Header?(lines, i)
  {
    FieldOf(lines[i]).name
  }

  /** The names of the header fields differ ignoring case. */
  ghost predicate Distinct(lines: seq<string>) {
    forall i, j :: Header?(lines, i) && Header?(lines, j) && i != j ==> !EqualFold(Name(lines, i), Name(lines, j))
  }

  /** Names equal ignoring case have the same canonical form: true of tokens, not of every text. */
  ghost predicate Foldable(lines: seq<string>) {
    forall i, j :: Header?(lines, i) && Header?(lines, j) && EqualFold(Name(lines, i), Name(lines, j)) ==>
      Canon(Name(lines, i)) == Canon(Name(lines, j))
  }

  ghost predicate Filled(lines: seq<string>) {
    forall i :: 0 < i < |lines| ==> lines[i] != ""
  }

  lemma {:induction false} CapitalsAt(s: string, upper: bool, i: nat)
    requires i < |s|
    ensures Capitals(s, upper)[i] ==
      if (i == 0 && upper) || (i > 0 && s[i - 1] == '-') then UpperChar(s[i]) else LowerChar(s[i])
  {
    if i > 0 {
      CapitalsAt(s[1..], s[0] == '-', i - 1);
    }
  }

  /** A canonical name has capitals at its start and after each hyphen, and small letters elsewhere. */
  lemma CanonMeans(key: string, i: nat)
    requires Token(key) && i < |key|
    ensures Canon(key)[i] == if i == 0 || key[i - 1] == '-' then UpperChar(key[i]) else LowerChar(key[i])
  {
    CapitalsAt(key, true, i);
  }

  lemma {:induction false} CapitalsFold(a: string, b: string, upper: bool)
    requires ToLower(a) == ToLower(b)
    ensures Capitals(a, upper) == Capitals(b, upper)
    decreases |a|
  {
    assert |a| == |ToLower(a)| == |ToLower(b)| == |b|;
    if a != "" {
      assert ToLower(a)[0] == LowerChar(a[0]) && ToLower(b)[0] == LowerChar(b[0]);
      assert ToLower(a[1..]) == ToLower(a)[1..] == ToLower(b)[1..] == ToLower(b[1..]);
      CapitalsFold(a[1..], b[1..], a[0] == '-');
    }
  }

  lemma {:induction false} CapitalsOnlyFold(a: string, upper: bool)
    ensures ToLower(Capitals(a, upper)) == ToLower(a)
    decreases |a|
  {
    var c := Capitals(a, upper);
    if a != "" {
      CapitalsOnlyFold(a[1..], a[0] == '-');
      assert c[1..] == Capitals(a[1..], a[0] == '-');
      assert ToLower(c) == [LowerChar(c[0])] + ToLower(c[1..]);
      assert ToLower(a) == [LowerChar(a[0])] + ToLower(a[1..]);
    }
  }

  lemma CanonFold(a: string)
    ensures EqualFold(Canon(a), a)
  {
    if Token(a) {
      CapitalsOnlyFold(a, true);
    }
  }

  /** With token names, equal ignoring case is the same canonical name. */
  lemma TokensFoldable(lines: seq<string>)
    requires forall i :: Header?(lines, i) ==> Token(Name(lines, i))
    ensures Foldable(lines)
  {
    hide FieldOf, Capitals, ToLower, Token;
    forall i, j | Header?(lines, i) && Header?(lines, j) && EqualFold(Name(lines, i), Name(lines, j))
      ensures Canon(Name(lines, i)) == Canon(Name(lines, j))
    {
      CapitalsFold(Name(lines, i), Name(lines, j), true);
    }
  }

  /** Distinct names are foldable whatever they are. */
  lemma DistinctFoldable(lines: seq<string>)
    requires Distinct(lines)
    ensures Foldable(lines)
  {
    hide FieldOf, Canon, EqualFold;
    forall i, j | Header?(lines, i) && Header?(lines, j) && EqualFold(Name(lines, i), Name(lines, j))
      ensures i == j
    {
    }
  }

  // ---- rewriting one field ----

  /** A rewritten field keeps its name and takes the new value. */
  lemma TextField(line: string, value: string)
    requires FieldOf(line).Field?
    ensures FieldOf(Text(FieldOf(line).name, value)) == Field(FieldOf(line).name, value)
    ensures Text(FieldOf(line).name, FieldOf(line).value) == line && Text(FieldOf(line).name, value) != ""
  {
    var n := |FieldOf(line).name|;
    var t := Text(FieldOf(line).name, value);
    assert line[n..n + 2] == ": ";
    assert t[n..n + 2] == ": ";
    forall i: nat | i < n ensures !At(t, ": ", i) {
      assert !At(line, ": ", i);
      assert t[..n + 1] == line[..n + 1];
      assert t[..n + 1][i] == t[i] && t[..n + 1][i + 1] == t[i + 1];
      assert line[..n + 1][i] == line[i] && line[..n + 1][i + 1] == line[i + 1];
      assert t[i..i + 2] == [t[i], t[i + 1]] == [line[i], line[i + 1]] == line[i..i + 2];
    }
    FindIs(t, ": ", n);
    assert t[..n] == FieldOf(line).name && t[n + 2..] == value;
    assert line == line[..n] + line[n..n + 2] + line[n + 2..];
  }

  /** The same names in the same places. */
  ghost predicate SameNames(a: seq<string>, b: seq<string>) {
    && |a| == |b| && Filled(a) && Filled(b)
    && forall i :: 0 < i < |a| ==>
         && FieldOf(a[i]).Field? == FieldOf(b[i]).Field?
         && (FieldOf(a[i]).Field? ==> FieldOf(a[i]).name == FieldOf(b[i]).name)
  }

  lemma {:induction false} FindSame(a: seq<string>, b: seq<string>, key: string, other: string, i: nat)
    requires SameNames(a, b) && EqualFold(key, other) && i > 0
    ensures FindField(a, key, i) == FindField(b, other, i)
    decreases |a| - i
  {
    hide FieldOf;
    if i < |a| {
      FindSame(a, b, key, other, i + 1);
    }
  }

  lemma {:induction false} FindReaches(lines: seq<string>, key: string, i: nat, m: nat)
    requires Filled(lines) && 0 < i <= m && Header?(lines, m) && EqualFold(Name(lines, m), key)
    ensures i <= FindField(lines, key, i) <= m
    decreases m - i
  {
    hide FieldOf, EqualFold;
    if i < m {
      FindReaches(lines, key, i + 1, m);
    }
  }

  /** The field its name finds first. */
  predicate First(lines: seq<string>, m: int) {
    Header?(lines, m) && FindField(lines, Name(lines, m), 1) == m
  }

  /** The map made from the lines themselves. */
  function OwnHeader(lines: seq<string>): Header { ParseFrom(lines, 1, map[]) }

  lemma {:induction false} SomeLine(lines: seq<string>, i: nat, key: string) returns (n: nat)
    requires Filled(lines) && i > 0 && Values(lines, i, key) != []
    ensures Header?(lines, n) && Canon(Name(lines, n)) == key
    decreases |lines| - i
  {
    hide FieldOf, Canon;
    if FieldOf(lines[i]).Field? && Canon(FieldOf(lines[i]).name) == key {
      n := i;
    } else {
      n := SomeLine(lines, i + 1, key);
    }
  }

  lemma SameFold(key: string)
    ensures EqualFold(key, key)
  {
  }
}
