/** JavaScript string operations used by the storefront, on ASCII strings:
    `split` on one character, `join`, `replace` of the first occurrence,
    `toUpperCase`, `startsWith`, `slice`, and the decimal rendering of a
    non-negative integer in a template literal. */
module Strings {

  /** Index of the first occurrence of `c` in `s` (`s.indexOf(c)`). */
  function IndexOf(s: string, c: char): (k: nat)
    requires c in s
    ensures k < |s| && s[k] == c
    ensures forall j :: 0 <= j < k ==> s[j] != c
  {
    if s[0] == c then 0
    else
      assert c in s[1..] by {
        var i :| 0 <= i < |s| && s[i] == c;
        assert s[1..][i - 1] == c;
      }
      1 + IndexOf(s[1..], c)
  }

  /** `s.split(sep)`: the pieces between occurrences of `sep`; never empty. */
  function Split(s: string, sep: char): (parts: seq<string>)
    ensures |parts| >= 1
    decreases |s|
  {
    if sep in s then
      var k := IndexOf(s, sep);
      [s[..k]] + Split(s[k + 1..], sep)
    else
      [s]
  }

  /** `parts.join(sep)`: `""` for no parts, the parts with `sep` between them otherwise. */
  function Join(parts: seq<string>, sep: string): string
  {
    if |parts| == 0 then ""
    else if |parts| == 1 then parts[0]
    else parts[0] + sep + Join(parts[1..], sep)
  }

  /** Number of occurrences of `c` in `s`. */
  function Count(s: string, c: char): nat
  {
    if s == [] then 0 else (if s[0] == c then 1 else 0) + Count(s[1..], c)
  }

  /** `s.startsWith(p)`. */
  predicate IsPrefix(p: string, s: string)
  {
    |p| <= |s| && s[..|p|] == p
  }

  /** `s.slice(i)` for a non-negative start. */
  function SliceFrom(s: string, i: nat): string
  {
    if i >= |s| then "" else s[i..]
  }

  /** `s.slice(0, n)` for a non-negative end. */
  function SliceTo(s: string, n: nat): string
  {
    if n >= |s| then s else s[..n]
  }

  /** `s.split(from).join(to)`: every occurrence of `from` replaced by `to`. */
  function ReplaceAll(s: string, from: char, to: char): string
  {
    Join(Split(s, from), [to])
  }

  /** `s.replace(from, to)` with a one-character pattern: only the first occurrence. */
  function ReplaceFirst(s: string, from: char, to: char): string
  {
    if from in s then
      var k := IndexOf(s, from);
      s[..k] + [to] + s[k + 1..]
    else s
  }

  /** `toUpperCase` on one character; only ASCII letters change. */
  function UpperChar(c: char): char
  {
    if 'a' <= c <= 'z' then (c as int - 32) as char else c
  }

  /** `s.toUpperCase()` on an ASCII string. */
  function Upper(s: string): string
  {
    seq(|s|, i requires 0 <= i < |s| => UpperChar(s[i]))
  }

  /** Every character of `s`, with each `from` changed into `to`. */
  ghost function Substituted(s: string, from: char, to: char): string
  {
    seq(|s|, i requires 0 <= i < |s| => if s[i] == from then to else s[i])
  }

  // ---------------------------------------------------------------------------
  // split and join

  lemma {:induction false} SplitPiecesAvoidSeparator(s: string, sep: char)
    ensures forall i :: 0 <= i < |Split(s, sep)| ==> sep !in Split(s, sep)[i]
    decreases |s|
  {
    if sep in s {
      var k := IndexOf(s, sep);
      SplitPiecesAvoidSeparator(s[k + 1..], sep);
      var parts := Split(s, sep);
      assert parts == [s[..k]] + Split(s[k + 1..], sep);
      forall i | 0 <= i < |parts| ensures sep !in parts[i] {
        if i == 0 {
          assert forall j :: 0 <= j < k ==> s[..k][j] != sep;
        } else {
          assert parts[i] == Split(s[k + 1..], sep)[i - 1];
        }
      }
    }
  }

  /** Joining the pieces with the separator gives the string back. */
  lemma {:induction false} JoinSplit(s: string, sep: char)
    ensures Join(Split(s, sep), [sep]) == s
    decreases |s|
  {
    if sep in s {
      var k := IndexOf(s, sep);
      var rest := Split(s[k + 1..], sep);
      JoinSplit(s[k + 1..], sep);
      assert Split(s, sep) == [s[..k]] + rest;
      assert ([s[..k]] + rest)[1..] == rest;
      calc {
        Join(Split(s, sep), [sep]);
        s[..k] + [sep] + Join(rest, [sep]);
        s[..k] + [sep] + s[k + 1..];
        { assert s[k] == sep; }
        s;
      }
    }
  }

  /** A separator-free head followed by the separator is the first piece. */
  lemma SplitAtFirst(head: string, sep: char, tail: string)
    requires sep !in head
    ensures Split(head + [sep] + tail, sep) == [head] + Split(tail, sep)
  {
    var s := head + [sep] + tail;
    var k := |head|;
    assert s[k] == sep;
    assert forall j :: 0 <= j < k ==> s[j] == head[j];
    assert IndexOf(s, sep) == k;
    assert s[..k] == head;
    assert s[k + 1..] == tail;
  }

  /** Splitting a join of separator-free pieces gives the pieces back. */
  lemma {:induction false} SplitJoin(parts: seq<string>, sep: char)
    requires |parts| >= 1
    requires forall i :: 0 <= i < |parts| ==> sep !in parts[i]
    ensures Split(Join(parts, [sep]), sep) == parts
    decreases |parts|
  {
    if |parts| == 1 {
      assert sep !in parts[0];
    } else {
      var s := Join(parts, [sep]);
      var tail := Join(parts[1..], [sep]);
      assert s == parts[0] + [sep] + tail;
      SplitAtFirst(parts[0], sep, tail);
      SplitJoin(parts[1..], sep);
      assert Split(s, sep) == [parts[0]] + parts[1..];
    }
  }

  /** Splitting on `sep` yields one piece more than there are occurrences of `sep`. */
  lemma {:induction false} SplitCount(s: string, sep: char)
    ensures |Split(s, sep)| == Count(s, sep) + 1
    decreases |s|
  {
    if sep in s {
      var k := IndexOf(s, sep);
      SplitCount(s[k + 1..], sep);
      CountConcat(s[..k], s[k..], sep);
      CountAbsent(s[..k], sep);
      assert s[..k] + s[k..] == s;
      assert s[k..][1..] == s[k + 1..];
    } else {
      CountAbsent(s, sep);
    }
  }

  lemma {:induction false} CountAbsent(s: string, c: char)
    requires c !in s
    ensures Count(s, c) == 0
  {
    if s != [] {
      assert c !in s[1..];
      CountAbsent(s[1..], c);
    }
  }

  lemma {:induction false} CountConcat(a: string, b: string, c: char)
    ensures Count(a + b, c) == Count(a, c) + Count(b, c)
  {
    if a != [] {
      assert (a + b)[1..] == a[1..] + b;
      CountConcat(a[1..], b, c);
    } else {
      assert a + b == b;
    }
  }

  /** Joining a list extended by one piece appends the separator and that piece. */
  lemma {:induction false} JoinSnoc(parts: seq<string>, last: string, sep: string)
    requires |parts| >= 1
    ensures Join(parts + [last], sep) == Join(parts, sep) + sep + last
    decreases |parts|
  {
    if |parts| == 1 {
      assert (parts + [last])[1..] == [last];
    } else {
      assert (parts + [last])[1..] == parts[1..] + [last];
      JoinSnoc(parts[1..], last, sep);
    }
  }

  /** `split(from).join(to)` changes exactly the occurrences of `from`, one character each. */
  lemma {:induction false} ReplaceAllSubstitutes(s: string, from: char, to: char)
    ensures ReplaceAll(s, from, to) == Substituted(s, from, to)
    decreases |s|
  {
    if from in s {
      var k := IndexOf(s, from);
      var rest := Split(s[k + 1..], from);
      ReplaceAllSubstitutes(s[k + 1..], from, to);
      assert Split(s, from) == [s[..k]] + rest;
      assert ([s[..k]] + rest)[1..] == rest;
      var r := s[..k] + [to] + Join(rest, [to]);
      assert ReplaceAll(s, from, to) == r;
      assert |r| == |s|;
      forall i | 0 <= i < |s| ensures r[i] == Substituted(s, from, to)[i] {
        if i > k {
          assert r[i] == Substituted(s[k + 1..], from, to)[i - k - 1];
        }
      }
    } else {
      assert Split(s, from) == [s];
    }
  }

  /** A string with no `from` is not changed by `replace`, and one with `from`
      changes at the first occurrence only. */
  lemma ReplaceFirstAt(s: string, from: char, to: char, j: nat)
    requires j < |s|
    ensures |ReplaceFirst(s, from, to)| == |s|
    ensures ReplaceFirst(s, from, to)[j] ==
              if from in s && j == IndexOf(s, from) then to else s[j]
  {
  }

  // ---------------------------------------------------------------------------
  // decimal rendering of a non-negative integer

  function DigitChar(d: nat): (c: char)
    requires d < 10
    ensures '0' <= c <= '9'
  {
    ('0' as int + d) as char
  }

  function DigitValue(c: char): nat
  {
    if '0' <= c <= '9' then c as int - '0' as int else 0
  }

  /** `${n}` for a non-negative integer: its decimal digits, most significant first. */
  function NatToString(n: nat): (s: string)
    ensures |s| >= 1
    ensures forall i :: 0 <= i < |s| ==> '0' <= s[i] <= '9'
  {
    if n < 10 then [DigitChar(n)] else NatToString(n / 10) + [DigitChar(n % 10)]
  }

  /** Value of a string of decimal digits. */
  function ParseDecimal(s: string): nat
  {
    if s == [] then 0 else 10 * ParseDecimal(s[..|s| - 1]) + DigitValue(s[|s| - 1])
  }

  /** Reading the rendered digits back gives the number: the rendering loses nothing. */
  lemma {:induction false} DecimalRoundTrip(n: nat)
    ensures ParseDecimal(NatToString(n)) == n
  {
    if n >= 10 {
      DecimalRoundTrip(n / 10);
      var s := NatToString(n);
      assert s[..|s| - 1] == NatToString(n / 10);
    }
  }
}
