// String helpers standing for the Python str methods the tools rely on:
// `in` on strings, endswith, split, rstrip, upper/lower, str(int) and int(str).
module Text {
  import opened Wrappers

  predicate IsDigit(c: char) { '0' <= c <= '9' }

  function DigitValue(c: char): nat
    requires IsDigit(c)
  {
    (c as int - '0' as int) as nat
  }

  function DigitChar(d: nat): (c: char)
    requires d < 10
    ensures IsDigit(c) && DigitValue(c) == d
  {
    ('0' as int + d) as char
  }

  /** ASCII case mapping (Python maps every Unicode letter; see README). */
  function Lower(c: char): char {
    if 'A' <= c <= 'Z' then (c as int + 32) as char else c
  }

  function Upper(c: char): char {
    if 'a' <= c <= 'z' then (c as int - 32) as char else c
  }

  /** Whether `c` matches the pattern character `p` under Python's re.IGNORECASE, for ASCII `p`:
      besides ASCII case, the Kelvin sign matches k, the long s matches s, and the dotted capital
      and dotless small i match i. */
  predicate IgnoreCaseEq(c: char, p: char) {
    || Lower(c) == Lower(p)
    || (Lower(p) == 'k' && c == '\U{212A}')
    || (Lower(p) == 's' && c == '\U{017F}')
    || (Lower(p) == 'i' && (c == '\U{0130}' || c == '\U{0131}'))
  }

  function LowerStr(s: string): (r: string)
    ensures |r| == |s| && forall i :: 0 <= i < |s| ==> r[i] == Lower(s[i])
  {
    if s == [] then [] else [Lower(s[0])] + LowerStr(s[1..])
  }

  function UpperStr(s: string): (r: string)
    ensures |r| == |s| && forall i :: 0 <= i < |s| ==> r[i] == Upper(s[i])
  {
    if s == [] then [] else [Upper(s[0])] + UpperStr(s[1..])
  }

  /** Upper-casing twice is upper-casing once. */
  lemma UpperStrIdempotent(s: string)
    ensures UpperStr(UpperStr(s)) == UpperStr(s)
  {
  }

  /** `sub` occurs in `s` starting at index `i`. */
  predicate OccursAt(s: string, sub: string, i: int) {
    0 <= i && i + |sub| <= |s| && s[i..i + |sub|] == sub
  }

  /** Python's `sub in s`, computed by scanning from the left. */
  function Contains(s: string, sub: string): (b: bool)
    ensures b <==> exists i :: OccursAt(s, sub, i)
    decreases |s|
  {
    if |sub| > |s| then false
    else if s[..|sub|] == sub then
      assert OccursAt(s, sub, 0);
      true
    else
      var rest := Contains(s[1..], sub);
      if rest then
        var i :| OccursAt(s[1..], sub, i);
        assert OccursAt(s, sub, i + 1) by { assert s[i + 1..i + 1 + |sub|] == s[1..][i..i + |sub|]; }
        true
      else
        assert !OccursAt(s, sub, 0);
        assert forall i :: OccursAt(s, sub, i) ==> OccursAt(s[1..], sub, i - 1) by {
          forall i | OccursAt(s, sub, i) ensures OccursAt(s[1..], sub, i - 1) {
            assert s[1..][i - 1..i - 1 + |sub|] == s[i..i + |sub|];
          }
        }
        false
  }

  predicate StartsWith(s: string, prefix: string) {
    |prefix| <= |s| && s[..|prefix|] == prefix
  }

  predicate EndsWith(s: string, suffix: string) {
    |suffix| <= |s| && s[|s| - |suffix|..] == suffix
  }

  /** Python's `s.rstrip(c)`: every trailing `c` removed. */
  function RStrip(s: string, c: char): (r: string)
    ensures |r| <= |s| && r == s[..|r|]
    ensures r == [] || r[|r| - 1] != c
    ensures forall i :: |r| <= i < |s| ==> s[i] == c
  {
    if s == [] then []
    else if s[|s| - 1] == c then RStrip(s[..|s| - 1], c)
    else s
  }

  /** Python's `s.split(sep)` for a one-character separator. */
  function Split(s: string, sep: char): (parts: seq<string>)
    ensures |parts| >= 1
    ensures forall k :: 0 <= k < |parts| ==> sep !in parts[k]
    decreases |s|
  {
    if s == [] then [""]
    else
      var tail := Split(s[1..], sep);
      if s[0] == sep then [""] + tail
      else [[s[0]] + tail[0]] + tail[1..]
  }

  function Join(parts: seq<string>, sep: char): string
    requires |parts| >= 1
  {
    if |parts| == 1 then parts[0] else parts[0] + [sep] + Join(parts[1..], sep)
  }

  function CountChar(s: string, c: char): nat {
    if s == [] then 0 else (if s[0] == c then 1 else 0) + CountChar(s[1..], c)
  }

  /** Splitting then re-joining gives the text back, and the number of parts is one more than the
      number of separators: the facts every caller of `split` relies on. */
  lemma {:induction false} SplitJoin(s: string, sep: char)
    ensures Join(Split(s, sep), sep) == s
    ensures |Split(s, sep)| == CountChar(s, sep) + 1
    decreases |s|
  {
    if s != [] {
      SplitJoin(s[1..], sep);
      var tail := Split(s[1..], sep);
      if s[0] != sep {
        if |tail| == 1 {
        } else {
          assert ([s[0]] + tail[0]) + [sep] + Join(tail[1..], sep) == [s[0]] + (tail[0] + [sep] + Join(tail[1..], sep));
        }
      }
    }
  }

  /** Splitting text that starts with a separator-free field and a separator gives that field
      followed by the split of the rest. */
  lemma {:induction false} SplitAfter(a: string, b: string, sep: char)
    requires sep !in a
    ensures Split(a + [sep] + b, sep) == [a] + Split(b, sep)
    decreases |a|
  {
    if a == [] {
      assert a + [sep] + b == [sep] + b;
      assert ([sep] + b)[1..] == b;
    } else {
      var s := a + [sep] + b;
      assert s[1..] == a[1..] + [sep] + b;
      SplitAfter(a[1..], b, sep);
      assert [a[0]] + a[1..] == a;
    }
  }

  /** Decimal text of a natural number, as Python's str() writes it. */
  function NatText(n: nat): (r: string)
    ensures |r| >= 1 && forall i :: 0 <= i < |r| ==> IsDigit(r[i])
  {
    if n < 10 then [DigitChar(n)] else NatText(n / 10) + [DigitChar(n % 10)]
  }

  /** Python's str() of an int. */
  function IntText(i: int): (r: string)
    ensures |r| >= 1
  {
    if i < 0 then "-" + NatText(-i) else NatText(i)
  }

  /** The number a non-empty string of decimal digits stands for. */
  function DigitsValue(s: string): nat
    requires forall i :: 0 <= i < |s| ==> IsDigit(s[i])
  {
    if s == [] then 0 else DigitsValue(s[..|s| - 1]) * 10 + DigitValue(s[|s| - 1])
  }

  predicate AllDigits(s: string) {
    forall i :: 0 <= i < |s| ==> IsDigit(s[i])
  }

  lemma {:induction false} NatTextValue(n: nat)
    ensures DigitsValue(NatText(n)) == n
  {
    if n >= 10 {
      NatTextValue(n / 10);
      var t := NatText(n / 10) + [DigitChar(n % 10)];
      assert t[..|t| - 1] == NatText(n / 10);
    }
  }

  /** The whitespace Python's int() ignores around a number (ASCII part). */
  predicate IsSpace(c: char) {
    c == ' ' || c == '\t' || c == '\n' || c == '\r' || c == '\U{0B}' || c == '\U{0C}'
  }

  function StripSpace(s: string): (r: string)
    ensures |r| <= |s|
    decreases |s|
  {
    if s != [] && IsSpace(s[0]) then StripSpace(s[1..])
    else if s != [] && IsSpace(s[|s| - 1]) then StripSpace(s[..|s| - 1])
    else s
  }

  /** Python's int() of a string: optional surrounding whitespace, an optional sign, then at least
      one decimal digit; anything else raises ValueError, which is None here. */
  function ParseInt(s: string): (r: Option<int>)
    ensures r.Some? ==> StripSpace(s) != []
  {
    var t := StripSpace(s);
    if t != [] && (t[0] == '-' || t[0] == '+') then
      var digits := t[1..];
      if digits != [] && AllDigits(digits) then
        var v: int := DigitsValue(digits);
        Some(if t[0] == '-' then -v else v)
      else None
    else if t != [] && AllDigits(t) then Some(DigitsValue(t))
    else None
  }

  lemma StripSpaceOfDigits(s: string)
    requires s != [] && (AllDigits(s) || (s[0] == '-' && AllDigits(s[1..])))
    ensures StripSpace(s) == s
  {
  }

  /** int(str(i)) == i: the decimal text of every integer parses back to it. */
  lemma ParseIntText(i: int)
    ensures ParseInt(IntText(i)) == Some(i)
  {
    if i < 0 {
      NatTextValue(-i);
      var t := "-" + NatText(-i);
      assert t[1..] == NatText(-i);
      StripSpaceOfDigits(t);
    } else {
      NatTextValue(i);
      StripSpaceOfDigits(NatText(i));
    }
  }

  /** Text without a dot splits into itself alone. */
  lemma SplitOfDotless(t: string)
    requires '.' !in t
    ensures Split(t, '.') == [t]
  {
    SplitJoin(t, '.');
    CountAbsent(t, '.');
  }

  lemma {:induction false} CountAbsent(t: string, c: char)
    requires c !in t
    ensures CountChar(t, c) == 0
  {
    if t != [] {
      CountAbsent(t[1..], c);
    }
  }

  /** The decimal text of an integer has no dot. */
  lemma NoDotInIntText(n: int)
    ensures '.' !in IntText(n)
  {
    var t := IntText(n);
    if n < 0 {
      assert t == "-" + NatText(-n);
      assert forall k :: 1 <= k < |t| ==> t[k] == NatText(-n)[k - 1];
    }
  }

  /** The texts of a list written one after the other (Python's ''.join). */
  function Concat(parts: seq<string>): string {
    if parts == [] then "" else parts[0] + Concat(parts[1..])
  }

  lemma {:induction false} ConcatAppend(a: seq<string>, b: seq<string>)
    ensures Concat(a + b) == Concat(a) + Concat(b)
  {
    if a == [] {
      assert a + b == b;
    } else {
      assert (a + b)[0] == a[0] && (a + b)[1..] == a[1..] + b;
      ConcatAppend(a[1..], b);
    }
  }

  lemma ConcatOne(l: seq<string>)
    requires |l| == 1
    ensures Concat(l) == l[0]
  {
    assert l[1..] == [];
  }

  lemma AppendAssoc(a: string, b: string, c: string)
    ensures (a + b) + c == a + (b + c)
  {
  }
}
