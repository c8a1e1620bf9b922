/** Words, spaces and letter case of byte strings, as strings.Fields, TrimSpace, ToLower and HasPrefix
    treat ASCII text, and decimal numbers as strconv writes and reads them. */
module Words {

  predicate IsSpace(c: char) {
    c == ' ' || c == '\t' || c == '\n' || c == '\r' || c as int == 11 || c as int == 12
  }

  predicate NoSpace(s: string) {
    forall i :: 0 <= i < |s| ==> !IsSpace(s[i])
  }

  function TrimLeft(s: string): (r: string)
    ensures |r| <= |s| && r == s[|s| - |r|..]
    ensures r != "" ==> !IsSpace(r[0])
  {
    if s != "" && IsSpace(s[0]) then TrimLeft(s[1..]) else s
  }

  function TrimRight(s: string): (r: string)
    ensures |r| <= |s| && r == s[..|r|]
  {
    if s != "" && IsSpace(s[|s| - 1]) then TrimRight(s[..|s| - 1]) else s
  }

  /** strings.TrimSpace. */
  function TrimSpace(s: string): (r: string)
    ensures |r| <= |s|
    ensures forall c :: c in r ==> c in s
  {
    TrimRight(TrimLeft(s))
  }

  lemma {:induction false} TrimLeftSpaces(s: string, i: nat)
    requires i < |s| - |TrimLeft(s)|
    ensures IsSpace(s[i])
  {
    hide IsSpace;
    if i > 0 {
      TrimLeftSpaces(s[1..], i - 1);
    }
  }

  lemma {:induction false} TrimRightSpaces(s: string, i: nat)
    requires |TrimRight(s)| <= i < |s|
    ensures IsSpace(s[i])
    decreases |s|
  {
    hide IsSpace;
    if i < |s| - 1 {
      TrimRightSpaces(s[..|s| - 1], i);
    }
  }

  lemma {:induction false} TrimRightEnd(s: string)
    ensures var r := TrimRight(s); r != "" ==> !IsSpace(r[|r| - 1])
    decreases |s|
  {
    hide IsSpace;
    if s != "" && IsSpace(s[|s| - 1]) {
      TrimRightEnd(s[..|s| - 1]);
    }
  }

  /** Only white space goes, and all of it on both sides. */
  lemma TrimSpaceMeans(s: string) returns (from: nat, to: nat)
    ensures from <= to <= |s| && TrimSpace(s) == s[from..to]
    ensures forall i :: 0 <= i < |s| && (i < from || to <= i) ==> IsSpace(s[i])
    ensures from < to ==> !IsSpace(s[from]) && !IsSpace(s[to - 1])
  {
    hide IsSpace, TrimLeft, TrimRight;
    var t := TrimLeft(s);
    from := |s| - |t|;
    to := from + |TrimRight(t)|;
    assert TrimRight(t) == t[..to - from] == s[from..to];
    TrimRightEnd(t);
    forall i | 0 <= i < |s| && (i < from || to <= i) ensures IsSpace(s[i]) {
      if i < from {
        TrimLeftSpaces(s, i);
      } else {
        TrimRightSpaces(t, i - from);
        assert t[i - from] == s[i];
      }
    }
  }

  /** How many characters the word at the front of `s` has. */
  function WordLen(s: string): (n: nat)
    ensures n <= |s| && NoSpace(s[..n])
    ensures n < |s| ==> IsSpace(s[n])
  {
    if s == "" || IsSpace(s[0]) then 0 else 1 + WordLen(s[1..])
  }

  /** strings.Fields. */
  function Fields(s: string): (r: seq<string>)
    ensures forall i :: 0 <= i < |r| ==> r[i] != "" && NoSpace(r[i])
    decreases |s|
  {
    var t := TrimLeft(s);
    if t == "" then []
    else
      var n := WordLen(t);
      assert n > 0;
      [t[..n]] + Fields(t[n..])
  }

  lemma {:induction false} WordAtFront(w: string, rest: string)
    requires NoSpace(w) && (rest == "" || IsSpace(rest[0]))
    ensures WordLen(w + rest) == |w|
  {
    if w == "" {
      assert w + rest == rest;
    } else {
      WordAtFront(w[1..], rest);
      assert (w + rest)[1..] == w[1..] + rest;
    }
  }

  /** A word in front, after a blank or not, comes off as the first field. */
  lemma FieldsStep(w: string, rest: string)
    requires w != "" && NoSpace(w) && (rest == "" || IsSpace(rest[0]))
    ensures Fields(w + rest) == [w] + Fields(rest)
    ensures Fields(" " + (w + rest)) == [w] + Fields(rest)
  {
    WordAtFront(w, rest);
    var s := w + rest;
    assert s[0] == w[0];
    assert TrimLeft(s) == s;
    assert s[..|w|] == w && s[|w|..] == rest;
    assert (" " + s)[1..] == s;
    assert TrimLeft(" " + s) == s;
    hide TrimLeft, WordLen, NoSpace, IsSpace;
    assert Fields(s) == [w] + Fields(rest);
  }

  lemma NoFields()
    ensures Fields("") == []
  {
  }

  /** Three words with single blanks between them are the three fields. */
  lemma ThreeFields(a: string, b: string, c: string)
    requires a != "" && b != "" && c != "" && NoSpace(a) && NoSpace(b) && NoSpace(c)
    ensures Fields(a + " " + b + " " + c) == [a, b, c]
  {
    hide TrimLeft, WordLen, NoSpace, Fields;
    NoFields();
    FieldsStep(c, "");
    assert c + "" == c;
    FieldsStep(b, " " + c);
    FieldsStep(a, " " + (b + (" " + c)));
    assert a + " " + b + " " + c == a + (" " + (b + (" " + c)));
  }

  lemma LeadingBlank(s: string)
    ensures TrimSpace(" " + s) == TrimSpace(s)
  {
    assert (" " + s)[1..] == s;
  }

  // ---- letter case ----

  function LowerChar(c: char): char {
    if 'A' <= c <= 'Z' then c + 32 as char else c
  }

  /** strings.ToLower on ASCII. */
  function ToLower(s: string): (r: string)
    ensures |r| == |s|
  {
    seq(|s|, i requires 0 <= i < |s| => LowerChar(s[i]))
  }

  function UpperChar(c: char): char { if 'a' <= c <= 'z' then c - 32 as char else c }

  /** strings.EqualFold on ASCII. */
  predicate EqualFold(a: string, b: string) { ToLower(a) == ToLower(b) }

  /** strings.HasSuffix. */
  predicate HasSuffix(s: string, t: string) { |t| <= |s| && s[|s| - |t|..] == t }

  /** strings.HasPrefix(strings.ToLower(line), prefix). */
  predicate Begins(line: string, prefix: string) {
    prefix <= ToLower(line)
  }

  lemma BeginsAt(line: string, prefix: string, i: nat)
    requires Begins(line, prefix) && i < |prefix|
    ensures i < |line| && LowerChar(line[i]) == prefix[i]
  {
    assert ToLower(line)[i] == prefix[i];
  }

  // ---- decimal numbers ----

  function Digit(d: nat): char
    requires d < 10
  {
    '0' + d as char
  }

  /** fmt's %d and strconv.Itoa for a natural number. */
  function Dec(n: nat): (r: string)
    ensures r != "" && forall i :: 0 <= i < |r| ==> '0' <= r[i] <= '9'
  {
    if n < 10 then [Digit(n)] else Dec(n / 10) + [Digit(n % 10)]
  }

  /** The number a digit string stands for. */
  function Number(s: string): nat
    requires forall i :: 0 <= i < |s| ==> '0' <= s[i] <= '9'
  {
    if s == "" then 0 else 10 * Number(s[..|s| - 1]) + (s[|s| - 1] - '0') as nat
  }

  lemma {:induction false} NumberOfDec(n: nat)
    ensures Number(Dec(n)) == n
  {
    if n < 10 {
      assert Dec(n)[..0] == "";
    } else {
      NumberOfDec(n / 10);
      assert Dec(n)[..|Dec(n)| - 1] == Dec(n / 10);
    }
  }
}
