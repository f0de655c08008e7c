/** Options, and the few facts about printed text that the other modules rest on:
    decimal numbers, splitting at a separator, and reading up to a delimiter. */
module Text {

  datatype Option<+T> = None | Some(value: T)

  // ---------- Characters ----------

  predicate IsDigit(c: char) {
    '0' <= c <= '9'
  }

  predicate IsLetter(c: char) {
    'a' <= c <= 'z' || 'A' <= c <= 'Z'
  }

  predicate AllDigits(s: string) {
    forall i :: 0 <= i < |s| ==> IsDigit(s[i])
  }

  // ---------- Decimal numbers, as fmt prints them ----------

  function DigitChar(d: nat): char
    requires d < 10
  {
    '0' + d as char
  }

  function DigitValue(c: char): nat
    requires IsDigit(c)
  {
    (c - '0') as nat
  }

  function Decimal(n: nat): string {
    if n < 10 then [DigitChar(n)] else Decimal(n / 10) + [DigitChar(n % 10)]
  }

  function DecimalValue(s: string): nat
    requires AllDigits(s)
  {
    if s == "" then 0
    else 10 * DecimalValue(s[..|s| - 1]) + DigitValue(s[|s| - 1])
  }

  /** A printed number is a non-empty run of digits that reads back as the number. */
  lemma {:induction false} DecimalRoundTrip(n: nat)
    ensures Decimal(n) != "" && AllDigits(Decimal(n))
    ensures DecimalValue(Decimal(n)) == n
  {
    if n >= 10 {
      DecimalRoundTrip(n / 10);
      var d := Decimal(n);
      assert d[..|d| - 1] == Decimal(n / 10);
      assert DigitValue(d[|d| - 1]) == n % 10;
    } else {
      assert Decimal(n)[..0] == "";
    }
  }

  lemma DecimalInjective(m: nat, n: nat)
    requires Decimal(m) == Decimal(n)
    ensures m == n
  {
    DecimalRoundTrip(m);
    DecimalRoundTrip(n);
  }

  function Integer(n: int): string {
    if n < 0 then "-" + Decimal(-n) else Decimal(n)
  }

  lemma IntegerInjective(m: int, n: int)
    requires Integer(m) == Integer(n)
    ensures m == n
  {
    DecimalRoundTrip(if m < 0 then -m else m);
    DecimalRoundTrip(if n < 0 then -n else n);
    assert m < 0 <==> Integer(m)[0] == '-';
    assert n < 0 <==> Integer(n)[0] == '-';
    assert m < 0 ==> Integer(m)[1..] == Decimal(-m);
    assert n < 0 ==> Integer(n)[1..] == Decimal(-n);
  }

  // ---------- Splitting and joining ----------

  predicate Free(s: string, c: char) {
    forall i :: 0 <= i < |s| ==> s[i] != c
  }

  /** The length of the longest prefix without c. */
  function UpTo(s: string, c: char): (n: nat)
    ensures n <= |s|
    ensures Free(s[..n], c)
    ensures n < |s| ==> s[n] == c
  {
    if s == "" || s[0] == c then 0
    else
      var n := 1 + UpTo(s[1..], c);
      assert s[..n] == [s[0]] + s[1..][..n - 1];
      n
  }

  lemma UpToDelimiter(s: string, c: char, rest: string)
    requires Free(s, c)
    ensures UpTo(s + [c] + rest, c) == |s|
    ensures UpTo(s, c) == |s|
  {
    var t := s + [c] + rest;
    assert t[|s|] == c && forall k :: 0 <= k < |s| ==> t[k] == s[k];
    assert UpTo(t, c) <= |s|;
  }

  /** Python's s.split(c). */
  function Split(s: string, c: char): (parts: seq<string>)
    ensures parts != []
    decreases |s|
  {
    var n := UpTo(s, c);
    if n == |s| then [s] else [s[..n]] + Split(s[n + 1..], c)
  }

  lemma SplitFirst(s: string, c: char, rest: string)
    requires Free(s, c)
    ensures Split(s + [c] + rest, c) == [s] + Split(rest, c)
    ensures Split(s, c) == [s]
  {
    UpToDelimiter(s, c, rest);
    var t := s + [c] + rest;
    assert t[..|s|] == s && t[|s| + 1..] == rest;
  }

  lemma {:induction false} SplitLast(s: string, c: char, last: string)
    requires Free(last, c)
    ensures Split(s + [c] + last, c) == Split(s, c) + [last]
    decreases |s|
  {
    var n := UpTo(s, c);
    var t := s + [c] + last;
    if n == |s| {
      SplitFirst(s, c, last);
      SplitFirst(last, c, "");
    } else {
      assert t == s[..n] + [c] + (s[n + 1..] + [c] + last);
      SplitFirst(s[..n], c, s[n + 1..] + [c] + last);
      SplitLast(s[n + 1..], c, last);
    }
  }

  function Join(parts: seq<string>, separator: string): string {
    if parts == [] then ""
    else if |parts| == 1 then parts[0]
    else Join(parts[..|parts| - 1], separator) + separator + parts[|parts| - 1]
  }

  lemma {:induction false} JoinFront(first: string, rest: seq<string>, separator: string)
    requires rest != []
    ensures Join([first] + rest, separator) == first + separator + Join(rest, separator)
  {
    var all := [first] + rest;
    if |rest| > 1 {
      var init := rest[..|rest| - 1];
      assert all[..|all| - 1] == [first] + init;
      JoinFront(first, init, separator);
    } else {
      assert all[..1] == [first];
    }
  }

  // ---------- White space ----------

  predicate IsSpace(c: char) {
    c == ' ' || '\t' <= c <= '\r'
  }

  function TrimLeft(s: string): (t: string)
    ensures t != "" ==> !IsSpace(t[0])
    ensures |t| <= |s| && t == s[|s| - |t|..]
    ensures forall i :: 0 <= i < |s| - |t| ==> IsSpace(s[i])
  {
    if s != "" && IsSpace(s[0]) then TrimLeft(s[1..]) else s
  }

  function TrimRight(s: string): (t: string)
    ensures t != "" ==> !IsSpace(t[|t| - 1])
    ensures t <= s
    ensures forall i :: |t| <= i < |s| ==> IsSpace(s[i])
  {
    if s != "" && IsSpace(s[|s| - 1]) then TrimRight(s[..|s| - 1]) else s
  }

  /** Go's strings.TrimSpace and Python's str.strip. */
  function Trim(s: string): string {
    TrimRight(TrimLeft(s))
  }

  // ---------- Prefixes and substrings ----------

  predicate OccursAt(needle: string, hay: string, i: nat) {
    i + |needle| <= |hay| && hay[i..i + |needle|] == needle
  }

  /** Python's needle in hay. */
  predicate Occurs(needle: string, hay: string) {
    exists i :: 0 <= i <= |hay| && OccursAt(needle, hay, i)
  }

  predicate EndsWith(s: string, suffix: string) {
    |suffix| <= |s| && s[|s| - |suffix|..] == suffix
  }

  /** When only one dash is left to match, what stands before it must be the end of what is searched. */
  lemma OccursAroundDash(before: string, after: string, c: string)
    requires Free(before, '-') && Free(after, '-') && Free(c, '-')
    ensures Occurs(c + ['-'] + after, before + ['-'] + after) <==> EndsWith(before, c)
  {
    var needle, hay := c + ['-'] + after, before + ['-'] + after;
    if EndsWith(before, c) {
      var i := |before| - |c|;
      assert hay[i..i + |needle|] == needle;
      assert OccursAt(needle, hay, i);
    }
    if Occurs(needle, hay) {
      var i :| 0 <= i <= |hay| && OccursAt(needle, hay, i);
      assert needle[|c|] == hay[i..i + |needle|][|c|] == hay[i + |c|];
      assert i + |c| == |before| by {
        assert hay[i + |c|] == '-';
        assert forall k :: 0 <= k < |before| ==> hay[k] == before[k];
        assert forall k :: |before| < k < |hay| ==> hay[k] == after[k - |before| - 1];
      }
      assert forall k :: 0 <= k < |c| ==> before[i + k] == hay[i + k] == hay[i..i + |needle|][k] == needle[k] == c[k];
      assert before[|before| - |c|..] == c;
    }
  }

  lemma OccursPart(a: string, b: string, hay: string)
    requires Occurs(a + b, hay)
    ensures Occurs(b, hay)
  {
    var i :| 0 <= i <= |hay| && OccursAt(a + b, hay, i);
    assert hay[i + |a|..i + |a| + |b|] == hay[i..i + |a + b|][|a|..] == b;
    assert OccursAt(b, hay, i + |a|);
  }

  lemma OccursInLonger(needle: string, a: string, b: string)
    requires Occurs(needle, a) && a <= b
    ensures Occurs(needle, b)
  {
    var i :| 0 <= i <= |a| && OccursAt(needle, a, i);
    assert b[i..i + |needle|] == a[i..i + |needle|];
    assert OccursAt(needle, b, i);
  }

  /** A text without a separator occurs on one side of it. */
  lemma OccursAcross(needle: string, a: string, b: string, c: char)
    requires Free(needle, c) && Occurs(needle, a + [c] + b)
    ensures Occurs(needle, a) || Occurs(needle, b)
  {
    var hay := a + [c] + b;
    var i :| 0 <= i <= |hay| && OccursAt(needle, hay, i);
    assert forall k :: 0 <= k < |needle| ==> hay[i + k] == hay[i..i + |needle|][k] == needle[k];
    var k := |a| - i;
    assert hay[i + k] == c;
    if i + |needle| <= |a| {
      assert a[i..i + |needle|] == hay[i..i + |needle|];
      assert OccursAt(needle, a, i);
    } else if i > |a| {
      var j := i - |a| - 1;
      assert hay[|a| + 1..] == b;
      assert b[j..j + |needle|] == hay[|a| + 1..][j..j + |needle|] == hay[i..i + |needle|];
      assert OccursAt(needle, b, j);
    }
  }

  lemma EndsWithComponent(head: string, last: string, c: string)
    requires Free(c, '/')
    ensures EndsWith(head + ['/'] + last, c) <==> EndsWith(last, c)
  {
    var s := head + ['/'] + last;
    if EndsWith(last, c) {
      assert s[|s| - |c|..] == last[|last| - |c|..];
    }
    if EndsWith(s, c) {
      var n := |s| - |c|;
      assert forall k :: 0 <= k < |c| ==> s[n + k] == s[n..][k] == c[k];
      assert s[|head|] == '/' && n > |head|;
      assert s[|s| - |c|..] == last[|last| - |c|..];
    }
  }
}
