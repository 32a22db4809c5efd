/** The few Python string built-ins the core relies on, written out so that the
    model can reason about them: `str.find`, `str.split` and `str.join` with a
    one-character separator, `str.strip`, ASCII `str.lower`, `str(int)` and
    `int(str)` in base 10. */
module PyText {
  import opened Wrappers

  /** `str.isspace` for one character: the Unicode whitespace set CPython uses. */
  predicate IsSpace(c: char) {
    ('\t' <= c <= '\r') || ('\U{1c}' <= c <= '\U{1f}') || c == ' ' || c == '\U{85}'
    || c == '\U{a0}' || c == '\U{1680}' || ('\U{2000}' <= c <= '\U{200a}')
    || c == '\U{2028}' || c == '\U{2029}' || c == '\U{202f}' || c == '\U{205f}'
    || c == '\U{3000}'
  }

  /** How an f-string shows an optional text: `None` prints as "None". */
  function StrOrNone(o: Option<string>): string {
    match o
    case Some(t) => t
    case None => "None"
  }

  predicate IsDigit(c: char) {
    '0' <= c <= '9'
  }

  /** `s.find(c)`: the lowest index holding `c`, or -1 when there is none. */
  function Find(s: string, c: char): (i: int)
    ensures -1 <= i < |s|
    ensures i >= 0 ==> s[i] == c && forall j :: 0 <= j < i ==> s[j] != c
    ensures i == -1 ==> forall j :: 0 <= j < |s| ==> s[j] != c
  {
    if |s| == 0 then -1
    else if s[0] == c then 0
    else
      var k := Find(s[1..], c);
      if k == -1 then -1 else k + 1
  }

  /** The leading-whitespace half of `str.strip`. */
  function StripStart(s: string): (r: string)
    ensures |r| <= |s| && r == s[|s| - |r|..]
    ensures |r| == 0 || !IsSpace(r[0])
  {
    if |s| > 0 && IsSpace(s[0]) then StripStart(s[1..]) else s
  }

  /** The trailing-whitespace half of `str.strip`. */
  function StripEnd(s: string): (r: string)
    ensures |r| <= |s| && r == s[..|r|]
    ensures |r| == 0 || !IsSpace(r[|r| - 1])
  {
    if |s| > 0 && IsSpace(s[|s| - 1]) then StripEnd(s[..|s| - 1]) else s
  }

  /** What `StripStart` removes is whitespace. */
  lemma {:induction false} StripStartRemovesSpace(s: string)
    ensures forall i :: 0 <= i < |s| - |StripStart(s)| ==> IsSpace(s[i])
  {
    if |s| > 0 && IsSpace(s[0]) {
      StripStartRemovesSpace(s[1..]);
      assert forall i :: 1 <= i < |s| ==> s[i] == s[1..][i - 1];
    }
  }

  /** What `StripEnd` removes is whitespace. */
  lemma {:induction false} StripEndRemovesSpace(s: string)
    ensures forall i :: |StripEnd(s)| <= i < |s| ==> IsSpace(s[i])
  {
    if |s| > 0 && IsSpace(s[|s| - 1]) {
      StripEndRemovesSpace(s[..|s| - 1]);
    }
  }

  /** No whitespace at either end. */
  predicate Trimmed(s: string) {
    |s| == 0 || (!IsSpace(s[0]) && !IsSpace(s[|s| - 1]))
  }

  /** `s.strip()` with no argument: a contiguous piece of `s`. */
  function Strip(s: string): (r: string)
    ensures |r| <= |s|
    ensures exists i :: 0 <= i <= |s| - |r| && r == s[i..][..|r|]
  {
    var x := StripStart(s);
    var r := StripEnd(x);
    var i := |s| - |x|;
    assert x[..|r|] == s[i..][..|r|];
    r
  }

  /** No whitespace is left at either end of `s.strip()`. */
  lemma StripTrimmed(s: string)
    ensures Trimmed(Strip(s))
  {
    var x := StripStart(s);
    var r := StripEnd(x);
    assert |r| > 0 ==> r[0] == x[0];
  }

  /** A string that neither starts nor ends with whitespace is its own strip. */
  lemma StripUnchanged(s: string)
    requires Trimmed(s)
    ensures Strip(s) == s
  {
  }

  /** Stripping twice is stripping once. */
  lemma StripIdempotent(s: string)
    ensures Strip(Strip(s)) == Strip(s)
  {
    var x := StripStart(s);
    var y := StripEnd(x);
    assert y == Strip(s);
    if y != [] {
      assert y == x[..|y|];
      assert y[0] == x[0];
      assert StripStart(y) == y;
      assert StripEnd(y) == y;
    }
  }

  /** `s.strip()` is empty exactly when every character of `s` is whitespace. */
  lemma StripEmptyIff(s: string)
    ensures Strip(s) == [] <==> forall i :: 0 <= i < |s| ==> IsSpace(s[i])
  {
    var x := StripStart(s);
    StripStartRemovesSpace(s);
    StripEndRemovesSpace(x);
    assert x != [] ==> x[0] == s[|s| - |x|];
  }

  /** `c.lower()` restricted to ASCII letters. */
  function LowerChar(c: char): char {
    if 'A' <= c <= 'Z' then (c as int + 32) as char else c
  }

  /** `s.lower()` restricted to ASCII letters. */
  function Lower(s: string): (r: string)
    ensures |r| == |s|
    ensures forall i :: 0 <= i < |r| ==> !('A' <= r[i] <= 'Z')
    ensures forall i :: 0 <= i < |s| && !('A' <= s[i] <= 'Z') ==> r[i] == s[i]
    ensures forall i :: 0 <= i < |s| && 'A' <= s[i] <= 'Z' ==> r[i] == (s[i] as int + 32) as char
  {
    seq(|s|, i requires 0 <= i < |s| => LowerChar(s[i]))
  }

  /** `s.split(c)` for a one-character separator: never empty, one more piece than
      there are separators. */
  function Split(s: string, c: char): (parts: seq<string>)
    ensures |parts| >= 1
    ensures forall k :: 0 <= k < |parts| ==> c !in parts[k]
  {
    if |s| == 0 then [""]
    else if s[0] == c then [""] + Split(s[1..], c)
    else
      var t := Split(s[1..], c);
      [[s[0]] + t[0]] + t[1..]
  }

  /** Splitting a text made of whitespace gives pieces made of whitespace. */
  lemma {:induction false} SplitOfSpaces(s: string, c: char)
    requires forall i :: 0 <= i < |s| ==> IsSpace(s[i])
    ensures forall k, i :: 0 <= k < |Split(s, c)| && 0 <= i < |Split(s, c)[k]| ==> IsSpace(Split(s, c)[k][i])
  {
    if |s| > 0 {
      SplitOfSpaces(s[1..], c);
    }
  }

  /** `sep.join(parts)`: nothing for no pieces, and at least the first piece, one
      separator and the last piece for two or more. */
  function Join(parts: seq<string>, sep: string): (r: string)
    ensures |parts| == 0 ==> |r| == 0
    ensures |parts| > 1 ==> |r| >= |parts[0]| + |sep| + |parts[|parts| - 1]|
  {
    if |parts| == 0 then ""
    else if |parts| == 1 then parts[0]
    else
      var rest := Join(parts[1..], sep);
      assert parts[1..][|parts| - 2] == parts[|parts| - 1];
      parts[0] + sep + rest
  }

  /** A join starts with its first piece and ends with its last. */
  lemma {:induction false} JoinEnds(parts: seq<string>, sep: string)
    requires |parts| > 0
    ensures var r := Join(parts, sep);
      && |r| >= |parts[0]| && r[..|parts[0]|] == parts[0]
      && |r| >= |parts[|parts| - 1]| && r[|r| - |parts[|parts| - 1]|..] == parts[|parts| - 1]
  {
    if |parts| > 1 {
      JoinEnds(parts[1..], sep);
      var rest := Join(parts[1..], sep);
      assert parts[1..][|parts| - 2] == parts[|parts| - 1];
      assert (parts[0] + sep + rest)[..|parts[0]|] == parts[0];
      assert (parts[0] + sep + rest)[|parts[0] + sep + rest| - |rest|..] == rest;
    }
  }

  /** Two pieces join around one separator. */
  lemma JoinPair(a: string, b: string, sep: string)
    ensures Join([a, b], sep) == a + sep + b
  {
    assert [a, b][1..] == [b];
  }

  /** A piece free of the separator splits to itself. */
  lemma {:induction false} SplitNoSeparator(p: string, c: char)
    requires c !in p
    ensures Split(p, c) == [p]
  {
    if |p| > 0 {
      SplitNoSeparator(p[1..], c);
      assert [p[0]] + p[1..] == p;
    }
  }

  /** Splitting at the first separator, when it follows a separator-free piece. */
  lemma {:induction false} SplitAtFirst(p: string, c: char, rest: string)
    requires c !in p
    ensures Split(p + [c] + rest, c) == [p] + Split(rest, c)
  {
    if |p| == 0 {
      assert p + [c] + rest == [c] + rest;
      assert ([c] + rest)[1..] == rest;
    } else {
      SplitAtFirst(p[1..], c, rest);
      assert (p + [c] + rest)[1..] == p[1..] + [c] + rest;
      assert [p[0]] + p[1..] == p;
    }
  }

  /** `split` undoes `join` when no piece holds the separator. */
  lemma {:induction false} SplitJoin(parts: seq<string>, c: char)
    requires |parts| >= 1
    requires forall k :: 0 <= k < |parts| ==> c !in parts[k]
    ensures Split(Join(parts, [c]), c) == parts
  {
    if |parts| == 1 {
      SplitNoSeparator(parts[0], c);
    } else {
      SplitJoin(parts[1..], c);
      SplitAtFirst(parts[0], c, Join(parts[1..], [c]));
    }
  }

  /** A join of several pieces is the first piece, the separator and the join of the rest. */
  lemma JoinCons(p: string, rest: seq<string>, sep: string)
    requires |rest| > 0
    ensures Join([p] + rest, sep) == p + sep + Join(rest, sep)
  {
    assert ([p] + rest)[1..] == rest;
  }

  /** The step of `JoinSplit` when the text starts with the separator. */
  lemma JoinSplitAtSeparator(s: string, c: char)
    requires |s| > 0 && s[0] == c
    requires Join(Split(s[1..], c), [c]) == s[1..]
    ensures Join(Split(s, c), [c]) == s
  {
    JoinCons("", Split(s[1..], c), [c]);
    assert [c] + s[1..] == s;
  }

  /** Regrouping a concatenation that starts with one character. */
  lemma ConsConcat(x: char, p: string, q: string)
    ensures [x] + p + q == [x] + (p + q)
  {
  }

  /** The step of `JoinSplit` when the text starts inside a piece. */
  lemma JoinSplitInPiece(s: string, c: char)
    requires |s| > 0 && s[0] != c
    requires Join(Split(s[1..], c), [c]) == s[1..]
    ensures Join(Split(s, c), [c]) == s
  {
    var t := Split(s[1..], c);
    var h := [s[0]] + t[0];
    assert Split(s, c) == [h] + t[1..];
    if |t| == 1 {
      assert [h] + t[1..] == [h];
      assert Join(t, [c]) == t[0];
    } else {
      var rest := Join(t[1..], [c]);
      JoinCons(h, t[1..], [c]);
      JoinCons(t[0], t[1..], [c]);
      assert [t[0]] + t[1..] == t;
      ConsConcat(s[0], t[0], [c]);
      ConsConcat(s[0], t[0] + [c], rest);
    }
    assert [s[0]] + s[1..] == s;
  }

  /** `join` undoes `split`. */
  lemma {:induction false} JoinSplit(s: string, c: char)
    ensures Join(Split(s, c), [c]) == s
  {
    if |s| > 0 {
      JoinSplit(s[1..], c);
      if s[0] == c {
        JoinSplitAtSeparator(s, c);
      } else {
        JoinSplitInPiece(s, c);
      }
    }
  }

  function DigitChar(d: nat): char
    requires d < 10
  {
    ('0' as int + d) as char
  }

  function DigitValue(c: char): nat {
    if IsDigit(c) then c as int - '0' as int else 0
  }

  /** `str(n)` for a natural number: decimal digits, no leading zero. */
  function NatToString(n: nat): (s: string)
    ensures |s| >= 1 && forall i :: 0 <= i < |s| ==> IsDigit(s[i])
  {
    if n < 10 then [DigitChar(n)] else NatToString(n / 10) + [DigitChar(n % 10)]
  }

  /** `str(i)` for any integer. */
  function IntToString(i: int): (s: string)
    ensures |s| >= 1 && (IsDigit(s[0]) || s[0] == '-') && IsDigit(s[|s| - 1])
  {
    if i < 0 then "-" + NatToString(-i) else NatToString(i)
  }

  /** `str(i)` holds only digits and a leading minus sign. */
  lemma IntToStringChars(i: int)
    ensures forall k :: 0 <= k < |IntToString(i)| ==> IsDigit(IntToString(i)[k]) || IntToString(i)[k] == '-'
  {
  }

  /** The digits of an integer literal: `digit ("_"? digit)*`. */
  predicate IsDigitGroup(s: string) {
    && |s| > 0
    && IsDigit(s[0])
    && IsDigit(s[|s| - 1])
    && (forall i :: 0 <= i < |s| ==> IsDigit(s[i]) || s[i] == '_')
    && (forall i :: 0 <= i < |s| - 1 ==> !(s[i] == '_' && s[i + 1] == '_'))
  }

  /** The value of a run of digits, ignoring underscores. */
  function DigitsValue(s: string): nat {
    if |s| == 0 then 0
    else if s[|s| - 1] == '_' then DigitsValue(s[..|s| - 1])
    else DigitsValue(s[..|s| - 1]) * 10 + DigitValue(s[|s| - 1])
  }

  /** A base-10 integer literal as `int()` accepts it once surrounding whitespace is
      gone: an optional sign, then digits with single underscores between them. */
  function ParseIntLiteral(s: string): (r: Option<int>)
    ensures r.Some? ==> |s| > 0
  {
    if |s| > 0 && (s[0] == '+' || s[0] == '-') then
      if IsDigitGroup(s[1..]) then
        var v: int := DigitsValue(s[1..]);
        Some(if s[0] == '-' then -v else v)
      else None
    else if IsDigitGroup(s) then Some(DigitsValue(s))
    else None
  }

  /** `int(s)`: `None` stands for the `ValueError` Python raises. */
  function PyInt(s: string): (r: Option<int>)
    ensures r.Some? ==> exists i :: 0 <= i < |s| && IsDigit(s[i])
  {
    var t := StripEnd(StripStart(s));
    var v := ParseIntLiteral(t);
    assert v.Some? ==> IsDigit(t[|t| - 1]) by {
      if v.Some? && |t| > 0 && (t[0] == '+' || t[0] == '-') {
        assert t[1..][|t| - 2] == t[|t| - 1];
      }
    }
    assert |t| > 0 ==> t[|t| - 1] == s[|s| - |StripStart(s)| + |t| - 1];
    v
  }

  /** Surrounding whitespace does not change what `int()` makes of a text. */
  lemma PyIntIgnoresSurroundingSpace(s: string)
    ensures PyInt(Strip(s)) == PyInt(s)
  {
    StripIdempotent(s);
  }

  /** `int()` rejects a text whose first character, after no stripping, is neither a
      sign nor a digit. */
  lemma PyIntRejectsNonNumericStart(s: string)
    requires |s| > 0 && Trimmed(s)
    requires !IsDigit(s[0]) && s[0] != '+' && s[0] != '-'
    ensures PyInt(s) == None
  {
    StripUnchanged(s);
  }

  lemma {:induction false} DigitsValueOfNatToString(n: nat)
    ensures DigitsValue(NatToString(n)) == n
  {
    var s := NatToString(n);
    if n >= 10 {
      DigitsValueOfNatToString(n / 10);
      assert s[..|s| - 1] == NatToString(n / 10);
    }
  }

  /** The decimal form of a natural number is a digit group. */
  lemma NatToStringIsDigitGroup(n: nat)
    ensures IsDigitGroup(NatToString(n))
  {
    var s := NatToString(n);
    assert forall i :: 0 <= i < |s| ==> IsDigit(s[i]);
  }

  /** The decimal form of a natural number parses back to it. */
  lemma ParseNatToString(n: nat)
    ensures ParseIntLiteral(NatToString(n)) == Some(n)
  {
    var s := NatToString(n);
    NatToStringIsDigitGroup(n);
    DigitsValueOfNatToString(n);
    assert IsDigit(s[0]);
  }

  /** A minus sign before the decimal form of `n` parses to `-n`. */
  lemma ParseNegative(n: nat)
    ensures ParseIntLiteral("-" + NatToString(n)) == Some(-(n as int))
  {
    var digits := NatToString(n);
    var s := "-" + digits;
    assert s[1..] == digits;
    NatToStringIsDigitGroup(n);
    DigitsValueOfNatToString(n);
    var v: int := DigitsValue(digits);
    assert v == n;
    assert IsDigitGroup(s[1..]);
  }

  /** The decimal form of any integer parses back to it. */
  lemma ParseIntToString(i: int)
    ensures ParseIntLiteral(IntToString(i)) == Some(i)
  {
    if i < 0 {
      ParseNegative(-i);
    } else {
      ParseNatToString(i);
    }
  }

  /** `int(str(i)) == i` for every integer. */
  lemma PyIntOfIntToString(i: int)
    ensures PyInt(IntToString(i)) == Some(i)
  {
    var s := IntToString(i);
    assert Trimmed(s);
    StripUnchanged(s);
    ParseIntToString(i);
  }
}
