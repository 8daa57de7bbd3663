/** Text helpers used by the ASCII protocol: digit classes, base-10 and
    base-16 integers, splitting a sentence at a separator, substring search. */
module Strings {

  predicate IsDigit(c: char) { '0' <= c <= '9' }

  predicate IsHexDigit(c: char) { IsDigit(c) || 'a' <= c <= 'f' || 'A' <= c <= 'F' }

  function DigitValue(c: char): (v: nat)
    requires IsHexDigit(c)
    ensures v < 16
    ensures IsDigit(c) <==> v < 10
  {
    if IsDigit(c) then c as int - '0' as int
    else if 'a' <= c <= 'f' then c as int - 'a' as int + 10
    else c as int - 'A' as int + 10
  }

  predicate IsRadixDigit(c: char, radix: nat) { IsHexDigit(c) && DigitValue(c) < radix }

  /** One or more digits of the radix: `d+` for radix 10, `x+` for radix 16. */
  predicate Digits(s: string, radix: nat) {
    |s| > 0 && forall i :: 0 <= i < |s| ==> IsRadixDigit(s[i], radix)
  }

  /** `-?d+`: an optional minus sign and digits. */
  predicate SignedDigits(s: string, radix: nat) {
    Digits(s, radix) || (|s| > 1 && s[0] == '-' && Digits(s[1..], radix))
  }

  /** The value of a string of digits, most significant first. */
  function ParseNat(s: string, radix: nat): nat
    requires forall i :: 0 <= i < |s| ==> IsRadixDigit(s[i], radix)
    decreases |s|
  {
    if |s| == 0 then 0
    else
      var last := s[|s| - 1];
      assert IsRadixDigit(last, radix);
      var prefix := ParseNat(s[..|s| - 1], radix);
      ProductIsNat(prefix, radix);
      prefix * radix + DigitValue(last)
  }

  lemma ProductIsNat(a: nat, b: nat)
    ensures a * b >= 0
  {
  }

  /** `Integer.parseInt(s, radix)` on text the patterns accept. */
  function ParseInt(s: string, radix: nat): int
    requires SignedDigits(s, radix)
  {
    if Digits(s, radix) then ParseNat(s, radix) as int else -(ParseNat(s[1..], radix) as int)
  }

  function DigitChar(v: nat): (c: char)
    requires v < 16
    ensures IsHexDigit(c) && DigitValue(c) == v
  {
    if v < 10 then ('0' as int + v) as char else ('A' as int + v - 10) as char
  }

  lemma DivideByRadix(n: nat, radix: nat)
    requires radix == 10 || radix == 16
    requires n >= radix
    ensures n / radix < n && n % radix < radix && (n / radix) * radix + n % radix == n
  {
  }

  /** `n` written in `radix` without leading zeros (upper-case letters). */
  function NatText(n: nat, radix: nat): (s: string)
    requires radix == 10 || radix == 16
    ensures Digits(s, radix)
    decreases n
  {
    if n < radix then [DigitChar(n)]
    else
      DivideByRadix(n, radix);
      var front := NatText(n / radix, radix);
      var s := front + [DigitChar(n % radix)];
      assert forall i :: 0 <= i < |front| ==> s[i] == front[i];
      s
  }

  /** Reading back a number written in any radix gives the number. */
  lemma {:induction false} ParseNatText(n: nat, radix: nat)
    requires radix == 10 || radix == 16
    ensures ParseNat(NatText(n, radix), radix) == n
  {
    if n >= radix {
      DivideByRadix(n, radix);
      var s := NatText(n, radix);
      var front := NatText(n / radix, radix);
      assert s[..|s| - 1] == front;
      ParseNatText(n / radix, radix);
    }
  }

  /** `n` in decimal, with a minus sign when it is negative. */
  function IntText(n: int): (s: string)
    ensures SignedDigits(s, 10)
  {
    if n < 0 then
      var digits := NatText(-n, 10);
      assert ("-" + digits)[1..] == digits;
      "-" + digits
    else NatText(n, 10)
  }

  /** Reading back a signed number gives the number, minus sign included. */
  lemma ParseIntText(n: int)
    ensures ParseInt(IntText(n), 10) == n
  {
    var s := IntText(n);
    if n < 0 {
      assert s[0] == '-' && !IsHexDigit('-');
      assert s[1..] == NatText(-n, 10);
      ParseNatText(-n, 10);
    } else {
      ParseNatText(n, 10);
    }
  }

  /** 10 to the power `k`. */
  function Pow10(k: nat): (r: nat)
    ensures r >= 1
  {
    if k == 0 then 1 else 10 * Pow10(k - 1)
  }

  /** The low `width` decimal digits of `n`, zero-padded: what a group of
      exactly `width` digits such as `(dd)` holds. */
  function PaddedText(n: nat, width: nat): (s: string)
    ensures |s| == width
    ensures forall i :: 0 <= i < |s| ==> IsRadixDigit(s[i], 10)
    decreases width
  {
    if width == 0 then ""
    else
      var front := PaddedText(n / 10, width - 1);
      var s := front + [DigitChar(n % 10)];
      assert forall i :: 0 <= i < |front| ==> s[i] == front[i];
      s
  }

  lemma DivideByTen(n: nat, bound: nat)
    requires n < 10 * bound
    ensures n / 10 < bound && (n / 10) * 10 + n % 10 == n
  {
  }

  /** A number below 10^width reads back from its zero-padded digits. */
  lemma {:induction false} ParsePaddedText(n: nat, width: nat)
    requires n < Pow10(width)
    ensures ParseNat(PaddedText(n, width), 10) == n
    decreases width
  {
    if width > 0 {
      var s := PaddedText(n, width);
      var front := PaddedText(n / 10, width - 1);
      assert s[..|s| - 1] == front;
      DivideByTen(n, Pow10(width - 1));
      ParsePaddedText(n / 10, width - 1);
    }
  }

  /** The fields of `s` between occurrences of `sep`; empty fields are kept. */
  function Split(s: string, sep: char): (r: seq<string>)
    ensures |r| >= 1
    decreases |s|
  {
    if |s| == 0 then [""]
    else
      var rest := Split(s[1..], sep);
      if s[0] == sep then [""] + rest else [[s[0]] + rest[0]] + rest[1..]
  }

  /** The fields written one after another with `sep` between them. */
  function Join(parts: seq<string>, sep: char): string
    decreases |parts|
  {
    if |parts| == 0 then ""
    else if |parts| == 1 then parts[0]
    else parts[0] + [sep] + Join(parts[1..], sep)
  }

  /** Splitting loses nothing: joining the fields gives the text back, and no
      field holds the separator. */
  lemma {:induction false} SplitJoin(s: string, sep: char)
    ensures Join(Split(s, sep), sep) == s
    ensures forall i :: 0 <= i < |Split(s, sep)| ==> sep !in Split(s, sep)[i]
  {
    if |s| > 0 {
      var rest := Split(s[1..], sep);
      SplitJoin(s[1..], sep);
      if s[0] == sep {
        assert Split(s, sep) == [""] + rest;
        assert Join([""] + rest, sep) == "" + [sep] + Join(rest, sep);
        assert s == [sep] + s[1..];
      } else {
        var parts := Split(s, sep);
        assert parts == [[s[0]] + rest[0]] + rest[1..];
        if |rest| == 1 {
          assert Join(parts, sep) == [s[0]] + rest[0];
        } else {
          assert Join(rest, sep) == rest[0] + [sep] + Join(rest[1..], sep);
          assert parts[1..] == rest[1..];
        }
        assert s == [s[0]] + s[1..];
        forall i | 0 <= i < |parts| ensures sep !in parts[i] {
          if i > 0 {
            assert parts[i] == rest[i];
          } else {
            assert sep !in rest[0];
          }
        }
      }
    }
  }

  /** A field without the separator, followed by the separator or the end. */
  lemma {:induction false} SplitPrefix(a: string, t: string, sep: char)
    requires sep !in a
    ensures Split(a + t, sep) == [a + Split(t, sep)[0]] + Split(t, sep)[1..]
  {
    if |a| > 0 {
      SplitPrefix(a[1..], t, sep);
      assert (a + t)[1..] == a[1..] + t;
      assert [a[0]] + (a[1..] + Split(t, sep)[0]) == a + Split(t, sep)[0];
    } else {
      assert a + t == t;
      assert a + Split(t, sep)[0] == Split(t, sep)[0];
      assert Split(t, sep) == [Split(t, sep)[0]] + Split(t, sep)[1..];
    }
  }

  /** Fields free of the separator come back unchanged from their join. */
  lemma {:induction false} JoinSplit(parts: seq<string>, sep: char)
    requires |parts| >= 1
    requires forall i :: 0 <= i < |parts| ==> sep !in parts[i]
    ensures Split(Join(parts, sep), sep) == parts
  {
    if |parts| == 1 {
      SplitPrefix(parts[0], "", sep);
      assert parts[0] + "" == parts[0];
    } else {
      var tail := Join(parts[1..], sep);
      JoinSplit(parts[1..], sep);
      SplitPrefix(parts[0], [sep] + tail, sep);
      assert parts[0] + [sep] + tail == parts[0] + ([sep] + tail);
      assert ([sep] + tail)[1..] == tail;
      assert Split([sep] + tail, sep) == [""] + Split(tail, sep);
      assert parts[0] + "" == parts[0];
      assert parts == [parts[0]] + parts[1..];
    }
  }

  /** `s.contains(t)` */
  predicate Contains(s: string, t: string)
    decreases |s|
  {
    (|t| <= |s| && s[..|t|] == t) || (|s| > 0 && Contains(s[1..], t))
  }

  /** `t` occurs in `s` starting at index `i`. */
  predicate OccursAt(s: string, t: string, i: int) {
    0 <= i <= |s| - |t| && s[i..i + |t|] == t
  }

  /** `Contains` holds exactly when `t` occurs at some index of `s`. */
  lemma {:induction false} ContainsAt(s: string, t: string)
    ensures Contains(s, t) <==> exists i :: OccursAt(s, t, i)
  {
    if |s| > 0 {
      ContainsAt(s[1..], t);
      if Contains(s[1..], t) {
        var i :| OccursAt(s[1..], t, i);
        assert s[1..][i..i + |t|] == s[i + 1..i + 1 + |t|];
        assert OccursAt(s, t, i + 1);
      }
      if |t| <= |s| && s[..|t|] == t {
        assert OccursAt(s, t, 0);
      }
      if exists i :: OccursAt(s, t, i) {
        var i :| OccursAt(s, t, i);
        if i > 0 {
          assert s[1..][i - 1..i - 1 + |t|] == s[i..i + |t|];
          assert OccursAt(s[1..], t, i - 1);
        } else {
          assert s[..|t|] == s[0..0 + |t|];
        }
      }
    } else {
      if Contains(s, t) {
        assert OccursAt(s, t, 0);
      }
      if exists i :: OccursAt(s, t, i) {
        var i :| OccursAt(s, t, i);
        assert |t| == 0 && s[..|t|] == t;
      }
    }
  }

  /** A character that is neither the separator nor in any field is not in
      their join. */
  lemma {:induction false} JoinExcludes(parts: seq<string>, sep: char, c: char)
    requires c != sep
    requires forall i :: 0 <= i < |parts| ==> c !in parts[i]
    ensures c !in Join(parts, sep)
    decreases |parts|
  {
    if |parts| > 1 {
      JoinExcludes(parts[1..], sep, c);
      assert c !in parts[0];
      assert Join(parts, sep) == parts[0] + [sep] + Join(parts[1..], sep);
    }
  }
}
