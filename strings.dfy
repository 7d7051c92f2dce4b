/** The few pieces of Python string behaviour the core relies on: which
    characters count as whitespace for str.strip/str.lstrip/str.split, decimal
    rendering of line numbers in "path:line" locations, "sep".join and
    str.split(sep). */
module Strings {
  import opened Common

  /** str.isspace() for one character: the ASCII controls TAB..CR, the
      separators 0x1C..0x1F, the space, and the Unicode spaces Python adds. */
  predicate IsSpace(c: char) {
    || c == ' '
    || ('\t' <= c <= '\r')
    || ('\U{1C}' <= c <= '\U{1F}')
    || c == '\U{85}' || c == '\U{A0}' || c == '\U{1680}'
    || ('\U{2000}' <= c <= '\U{200A}')
    || c == '\U{2028}' || c == '\U{2029}' || c == '\U{202F}' || c == '\U{205F}'
    || c == '\U{3000}'
  }

  /** `line.strip()` is empty. */
  predicate IsBlank(s: string) {
    forall i :: 0 <= i < |s| ==> IsSpace(s[i])
  }

  /** `len(s) - len(s.lstrip())`: the indentation width of a line. */
  function LeadingSpace(s: string): (n: nat)
    ensures n <= |s|
    ensures forall i :: 0 <= i < n ==> IsSpace(s[i])
    ensures n < |s| ==> !IsSpace(s[n])
  {
    if s == [] || !IsSpace(s[0]) then 0 else 1 + LeadingSpace(s[1..])
  }

  /** Number of whitespace characters at the end of `s`. */
  function TrailingSpace(s: string): (n: nat)
    ensures n <= |s|
    ensures forall i :: |s| - n <= i < |s| ==> IsSpace(s[i])
    ensures n < |s| ==> !IsSpace(s[|s| - 1 - n])
  {
    if s == [] || !IsSpace(s[|s| - 1]) then 0 else 1 + TrailingSpace(s[..|s| - 1])
  }

  lemma BlankIsAllLeading(s: string)
    ensures IsBlank(s) <==> LeadingSpace(s) == |s|
  {
  }

  /** Any part of the indentation is itself blank. */
  lemma IndentPrefixBlank(s: string, k: nat)
    requires k <= LeadingSpace(s)
    ensures IsBlank(s[..k])
  {
    forall i | 0 <= i < k ensures IsSpace(s[..k][i]) {
      assert s[..k][i] == s[i];
    }
  }

  function LStrip(s: string): (r: string)
    ensures r == s[LeadingSpace(s)..]
    ensures r == [] || !IsSpace(r[0])
  {
    s[LeadingSpace(s)..]
  }

  /** `s.strip()`: `s` without its leading and trailing whitespace. */
  function Strip(s: string): (r: string)
    ensures r == [] || (!IsSpace(r[0]) && !IsSpace(r[|r| - 1]))
    ensures r == [] <==> IsBlank(s)
    ensures LeadingSpace(s) + |r| <= |s| && r == s[LeadingSpace(s)..LeadingSpace(s) + |r|]
  {
    var l := LStrip(s);
    StripFacts(s);
    l[..|l| - TrailingSpace(l)]
  }

  lemma StripFacts(s: string)
    ensures var l := LStrip(s);
      var r := l[..|l| - TrailingSpace(l)];
      (r == [] <==> IsBlank(s)) && r == s[LeadingSpace(s)..LeadingSpace(s) + |r|]
  {
    var l := LStrip(s);
    var r := l[..|l| - TrailingSpace(l)];
    if r == [] {
      BlankIsAllLeading(s);
    } else {
      assert !IsSpace(s[LeadingSpace(s)]);
    }
  }

  /** A string with no whitespace strips to itself. */
  lemma StripUnchanged(s: string)
    requires forall i :: 0 <= i < |s| ==> !IsSpace(s[i])
    ensures Strip(s) == s
  {
    assert LeadingSpace(s) == 0 by {
      if |s| > 0 { assert !IsSpace(s[0]); }
    }
    var l := LStrip(s);
    assert l == s;
    assert TrailingSpace(l) == 0 by {
      if |l| > 0 { assert !IsSpace(l[|l| - 1]); }
    }
  }

  function DigitChar(d: nat): (c: char)
    requires d < 10
    ensures '0' <= c <= '9'
  {
    ((('0' as int) + d) as char)
  }

  /** Decimal rendering of a natural number, as f"{n}" prints it. */
  function NatStr(n: nat): (s: string)
    ensures |s| > 0
    ensures forall i :: 0 <= i < |s| ==> '0' <= s[i] <= '9'
  {
    if n < 10 then [DigitChar(n)] else NatStr(n / 10) + [DigitChar(n % 10)]
  }

  /** The value of a string of decimal digits (int(s) for such a string). */
  function DigitsValue(s: string): nat
    requires forall i :: 0 <= i < |s| ==> '0' <= s[i] <= '9'
  {
    if s == [] then 0 else 10 * DigitsValue(s[..|s| - 1]) + ((s[|s| - 1] as int) - ('0' as int))
  }

  /** Reading back the decimal rendering gives the number. */
  lemma {:induction false} NatStrRoundTrip(n: nat)
    ensures DigitsValue(NatStr(n)) == n
  {
    if n >= 10 {
      NatStrRoundTrip(n / 10);
      var s := NatStr(n);
      assert s[..|s| - 1] == NatStr(n / 10);
    }
  }

  /** Different numbers render differently. */
  lemma NatStrInjective(a: nat, b: nat)
    requires NatStr(a) == NatStr(b)
    ensures a == b
  {
    NatStrRoundTrip(a);
    NatStrRoundTrip(b);
  }

  /** Decimal rendering of an integer, with a leading '-' when negative. */
  function IntStr(i: int): (s: string)
    ensures |s| > 0 && ':' !in s && ' ' !in s
  {
    var s := if i < 0 then "-" + NatStr(-i) else NatStr(i);
    assert forall j :: 0 <= j < |s| ==> s[j] == '-' || '0' <= s[j] <= '9';
    s
  }

  /** A rendering starts with a minus sign exactly for a negative number. */
  lemma IntStrSign(i: int)
    ensures IntStr(i)[0] == '-' <==> i < 0
  {
    if i >= 0 {
      assert '0' <= NatStr(i)[0] <= '9';
    }
  }

  /** Different integers render differently. */
  lemma IntStrInjective(a: int, b: int)
    requires IntStr(a) == IntStr(b)
    ensures a == b
  {
    IntStrSign(a);
    IntStrSign(b);
    if a < 0 && b < 0 {
      assert NatStr(-a) == IntStr(a)[1..];
      assert NatStr(-b) == IntStr(b)[1..];
      NatStrInjective(-a, -b);
    } else if a >= 0 && b >= 0 {
      NatStrInjective(a, b);
    }
  }

  /** `sep.join(parts)`. */
  function Join(parts: seq<string>, sep: string): string {
    if parts == [] then ""
    else if |parts| == 1 then parts[0]
    else parts[0] + sep + Join(parts[1..], sep)
  }

  /** `s.split(c)` for a one-character separator: never empty, and the
      pieces contain no separator. */
  function Split(s: string, c: char): (r: seq<string>)
    ensures |r| >= 1
    ensures forall i :: 0 <= i < |r| ==> c !in r[i]
  {
    if s == [] then [""]
    else
      var rest := Split(s[1..], c);
      if s[0] == c then [""] + rest
      else [[s[0]] + rest[0]] + rest[1..]
  }

  /** Splitting and joining with the same separator gives back the string. */
  lemma {:induction false} SplitJoin(s: string, c: char)
    ensures Join(Split(s, c), [c]) == s
  {
    if s != [] {
      var rest := Split(s[1..], c);
      SplitJoin(s[1..], c);
      if s[0] == c {
        assert Split(s, c) == [""] + rest;
        assert Join([""] + rest, [c]) == "" + [c] + Join(rest, [c]);
      } else {
        var r := [[s[0]] + rest[0]] + rest[1..];
        assert Split(s, c) == r;
        if |rest| == 1 {
          assert Join(r, [c]) == [s[0]] + rest[0];
        } else {
          assert Join(rest, [c]) == rest[0] + [c] + Join(rest[1..], [c]);
          assert r[1..] == rest[1..];
          assert Join(r, [c]) == [s[0]] + rest[0] + [c] + Join(rest[1..], [c]);
        }
        assert s == [s[0]] + s[1..];
      }
    }
  }

  /** Splitting a string that has no separator gives the string alone. */
  lemma {:induction false} SplitNoSeparator(s: string, c: char)
    requires c !in s
    ensures Split(s, c) == [s]
  {
    if s != [] {
      SplitNoSeparator(s[1..], c);
      assert [s[0]] + s[1..] == s;
    }
  }

  /** Splitting `a + [c] + b`, where `a` holds no `c`, cuts at that `c`. */
  lemma {:induction false} SplitAtFirst(a: string, b: string, c: char)
    requires c !in a
    ensures Split(a + [c] + b, c) == [a] + Split(b, c)
  {
    if a == [] {
      assert a + [c] + b == [c] + b;
      assert ([c] + b)[1..] == b;
    } else {
      var s := a + [c] + b;
      assert s[0] == a[0] && s[1..] == a[1..] + [c] + b;
      SplitAtFirst(a[1..], b, c);
      assert [a[0]] + a[1..] == a;
    }
  }

  /** Joining with a separator that no part contains and splitting again
      gives back the parts. */
  lemma {:induction false} JoinSplit(parts: seq<string>, c: char)
    requires |parts| >= 1
    requires forall i :: 0 <= i < |parts| ==> c !in parts[i]
    ensures Split(Join(parts, [c]), c) == parts
  {
    if |parts| == 1 {
      SplitNoSeparator(parts[0], c);
    } else {
      JoinSplit(parts[1..], c);
      SplitAtFirst(parts[0], Join(parts[1..], [c]), c);
      assert [parts[0]] + parts[1..] == parts;
    }
  }

  /** `s.split()[0]`: the first whitespace-delimited word, or None where
      Python raises IndexError because `s` is blank. The word starts right
      after the indentation and runs up to the next blank or the end. */
  function FirstWord(s: string): (r: Option<string>)
    ensures r.None? <==> IsBlank(s)
    ensures r.Some? ==> |r.value| > 0 && forall i :: 0 <= i < |r.value| ==> !IsSpace(r.value[i])
    ensures r.Some? ==>
      var k := LeadingSpace(s);
      && k + |r.value| <= |s|
      && r.value == s[k..k + |r.value|]
      && (k + |r.value| == |s| || IsSpace(s[k + |r.value|]))
  {
    var l := LStrip(s);
    if l == [] then
      assert IsBlank(s) by { BlankIsAllLeading(s); }
      None
    else
      assert !IsBlank(s) by { BlankIsAllLeading(s); }
      Some(l[..WordLength(l)])
  }

  /** The length of the run of non-blank characters at the start of `s`. */
  function WordLength(s: string): (n: nat)
    ensures n <= |s|
    ensures forall i :: 0 <= i < n ==> !IsSpace(s[i])
    ensures n < |s| ==> IsSpace(s[n])
  {
    if s == [] || IsSpace(s[0]) then 0 else 1 + WordLength(s[1..])
  }

  /** A word with no blank in it, followed by a blank or nothing, is the
      whole leading run. */
  lemma {:induction false} WordLengthStops(w: string, rest: string)
    requires forall i :: 0 <= i < |w| ==> !IsSpace(w[i])
    requires rest == [] || IsSpace(rest[0])
    ensures WordLength(w + rest) == |w|
  {
    if w == [] {
      assert w + rest == rest;
    } else {
      assert (w + rest)[1..] == w[1..] + rest;
      WordLengthStops(w[1..], rest);
    }
  }

  /** `(p + w + rest).split()[0] == w` for blank `p`, a non-empty word `w`
      and a `rest` that is empty or starts with a blank: with the contract
      of FirstWord this pins the result on every non-blank string. */
  lemma {:induction false} FirstWordOf(p: string, w: string, rest: string)
    requires IsBlank(p)
    requires w != [] && forall i :: 0 <= i < |w| ==> !IsSpace(w[i])
    requires rest == [] || IsSpace(rest[0])
    ensures FirstWord(p + w + rest) == Some(w)
  {
    var s := p + w + rest;
    assert s[|p|] == w[0];
    assert LeadingSpace(s) == |p| by {
      assert forall i :: 0 <= i < |p| ==> s[i] == p[i];
      assert !IsSpace(s[|p|]);
    }
    assert LStrip(s) == w + rest;
    WordLengthStops(w, rest);
    assert (w + rest)[..|w|] == w;
  }
}
