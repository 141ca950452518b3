/** Character and string helpers with Python's meaning: ASCII digit and letter tests,
    `str.find`/`str.rfind`, `str.lower()` on ASCII, `str(n)` and `int(s)` on digit strings. */
module Text {

  predicate IsDigit(c: char) {
    '0' <= c <= '9'
  }

  predicate IsLetter(c: char) {
    'a' <= c <= 'z' || 'A' <= c <= 'Z'
  }

  predicate AllDigits(s: string) {
    forall i :: 0 <= i < |s| ==> IsDigit(s[i])
  }

  /** No character of `s` is one of `cs`. */
  predicate Avoids(s: string, cs: set<char>) {
    forall i :: 0 <= i < |s| ==> s[i] !in cs
  }

  /** Every character is above the space, so none is a control character or whitespace. */
  predicate Printable(s: string) {
    forall i :: 0 <= i < |s| ==> s[i] > ' '
  }

  predicate StartsWith(s: string, prefix: string) {
    |prefix| <= |s| && s[..|prefix|] == prefix
  }

  lemma PrintableConcat(a: string, b: string)
    ensures Printable(a + b) <==> Printable(a) && Printable(b)
  {
    if Printable(a + b) {
      forall i | 0 <= i < |a| ensures a[i] > ' ' {
        assert a[i] == (a + b)[i];
      }
      forall i | 0 <= i < |b| ensures b[i] > ' ' {
        assert b[i] == (a + b)[|a| + i];
      }
    }
  }

  lemma AvoidsConcat(a: string, b: string, cs: set<char>)
    ensures Avoids(a + b, cs) <==> Avoids(a, cs) && Avoids(b, cs)
  {
    if Avoids(a, cs) && Avoids(b, cs) {
      forall i | 0 <= i < |a + b| ensures (a + b)[i] !in cs {
        if i >= |a| {
          assert (a + b)[i] == b[i - |a|];
        }
      }
    }
    if Avoids(a + b, cs) {
      forall i | 0 <= i < |a| ensures a[i] !in cs {
        assert a[i] == (a + b)[i];
      }
      forall i | 0 <= i < |b| ensures b[i] !in cs {
        assert b[i] == (a + b)[|a| + i];
      }
    }
  }

  lemma AvoidsSlice(s: string, cs: set<char>, i: nat, j: nat)
    requires i <= j <= |s| && Avoids(s, cs)
    ensures Avoids(s[i..j], cs)
  {
    forall k | 0 <= k < j - i ensures s[i..j][k] !in cs {
      assert s[i..j][k] == s[i + k];
    }
  }

  function DigitChar(d: nat): (c: char)
    requires d < 10
    ensures IsDigit(c)
  {
    ('0' as int + d) as char
  }

  function DigitValue(c: char): (d: nat)
    requires IsDigit(c)
    ensures d < 10
  {
    c as int - '0' as int
  }

  /** The value Python's `int()` gives a string of ASCII digits (leading zeros allowed). */
  function DecimalValue(s: string): nat
    requires AllDigits(s)
  {
    if |s| == 0 then 0 else DecimalValue(s[..|s| - 1]) * 10 + DigitValue(s[|s| - 1])
  }

  /** `str(n)` for a non-negative integer: its decimal digits, without leading zeros. */
  function NatToString(n: nat): (s: string)
    ensures |s| > 0 && AllDigits(s)
    ensures s[0] != '0' || n == 0
  {
    if n < 10 then [DigitChar(n)] else NatToString(n / 10) + [DigitChar(n % 10)]
  }

  /** Reading back what `str(n)` wrote gives `n`. */
  lemma {:induction false} NatToStringRoundTrip(n: nat)
    ensures DecimalValue(NatToString(n)) == n
  {
    if n >= 10 {
      var s := NatToString(n);
      assert s[..|s| - 1] == NatToString(n / 10);
      NatToStringRoundTrip(n / 10);
    }
  }

  function LowerChar(c: char): char {
    if 'A' <= c <= 'Z' then (c as int + 32) as char else c
  }

  /** `str.lower()` restricted to ASCII letters. */
  function Lower(s: string): (r: string)
    ensures |r| == |s|
    ensures forall i :: 0 <= i < |s| ==> r[i] == LowerChar(s[i])
  {
    if |s| == 0 then [] else [LowerChar(s[0])] + Lower(s[1..])
  }

  /** Lower-casing changes only letters, so it keeps every character listed in `cs` out
      when `cs` holds no letter. */
  lemma LowerAvoids(s: string, cs: set<char>)
    requires Avoids(s, cs)
    requires forall c :: c in cs ==> !IsLetter(c)
    ensures Avoids(Lower(s), cs)
  {
  }

  /** `str.find(c)`, except that "absent" is `|s|` rather than -1. */
  function FirstIndex(s: string, c: char): (i: nat)
    ensures i <= |s|
    ensures i < |s| ==> s[i] == c
    ensures forall j :: 0 <= j < i ==> s[j] != c
  {
    if |s| == 0 then 0 else if s[0] == c then 0 else 1 + FirstIndex(s[1..], c)
  }

  /** `str.rfind(c)`: the last index of `c`, or -1. */
  function LastIndex(s: string, c: char): (i: int)
    ensures -1 <= i < |s|
    ensures i >= 0 ==> s[i] == c
    ensures forall j :: i < j < |s| ==> s[j] != c
  {
    if |s| == 0 then -1 else if s[|s| - 1] == c then |s| - 1 else LastIndex(s[..|s| - 1], c)
  }

  /** The first index holding any character of `cs`, or `|s|`. */
  function FirstIndexOfAny(s: string, cs: set<char>): (i: nat)
    ensures i <= |s|
    ensures i < |s| ==> s[i] in cs
    ensures forall j :: 0 <= j < i ==> s[j] !in cs
  {
    if |s| == 0 then 0 else if s[0] in cs then 0 else 1 + FirstIndexOfAny(s[1..], cs)
  }

  lemma FirstIndexAt(a: string, c: char, b: string)
    requires c !in a
    ensures FirstIndex(a + [c] + b, c) == |a|
  {
    var s := a + [c] + b;
    assert s[|a|] == c;
    assert forall j :: 0 <= j < |a| ==> s[j] == a[j];
  }

  lemma FirstIndexAbsent(s: string, c: char)
    requires c !in s
    ensures FirstIndex(s, c) == |s|
  {
  }

  lemma {:induction false} LastIndexAt(a: string, c: char, b: string)
    requires c !in b
    ensures LastIndex(a + [c] + b, c) == |a|
    decreases |b|
  {
    var s := a + [c] + b;
    if b == [] {
      assert s == a + [c];
    } else {
      assert s[|s| - 1] == b[|b| - 1];
      assert s[..|s| - 1] == a + [c] + b[..|b| - 1];
      LastIndexAt(a, c, b[..|b| - 1]);
    }
  }

  lemma LastIndexAbsent(s: string, c: char)
    requires c !in s
    ensures LastIndex(s, c) == -1
  {
  }

  lemma FirstIndexOfAnyAbsent(s: string, cs: set<char>)
    requires Avoids(s, cs)
    ensures FirstIndexOfAny(s, cs) == |s|
  {
  }

  /** The number of occurrences of `c` in `s`. */
  function Count(s: string, c: char): nat {
    if |s| == 0 then 0 else (if s[0] == c then 1 else 0) + Count(s[1..], c)
  }

  lemma {:induction false} CountConcat(a: string, b: string, c: char)
    ensures Count(a + b, c) == Count(a, c) + Count(b, c)
  {
    if a == [] {
      assert a + b == b;
    } else {
      assert (a + b)[1..] == a[1..] + b;
      CountConcat(a[1..], b, c);
    }
  }

  lemma {:induction false} CountAbsent(s: string, c: char)
    requires c !in s
    ensures Count(s, c) == 0
  {
    if s != [] {
      assert s[0] != c;
      CountAbsent(s[1..], c);
    }
  }
}
