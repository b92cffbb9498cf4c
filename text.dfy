/** The string operations `open` relies on: Rust's `str::split` on one character and
    `str::parse::<usize>`. */
module Text {
  import opened Native

  datatype Option<+T> = None | Some(value: T)

  /** The pieces of `s` between occurrences of `sep`, as `s.split(sep)` yields them: there is
      always at least one piece, and separators next to each other or at either end give
      empty pieces. */
  function Split(s: string, sep: char): (pieces: seq<string>)
    ensures |pieces| >= 1
    ensures |pieces| <= |s| + 1
  {
    if s == [] then [""]
    else
      var rest := Split(s[1..], sep);
      if s[0] == sep then [""] + rest
      else [[s[0]] + rest[0]] + rest[1..]
  }

  /** The pieces glued back together with `sep` between neighbours. */
  function Join(pieces: seq<string>, sep: char): string
    requires |pieces| >= 1
  {
    if |pieces| == 1 then pieces[0] else pieces[0] + [sep] + Join(pieces[1..], sep)
  }

  /** The first piece starts the joined string. */
  lemma JoinHeadPrefix(pieces: seq<string>, sep: char)
    requires |pieces| >= 1
    ensures pieces[0] <= Join(pieces, sep)
  {
    if |pieces| > 1 {
      assert Join(pieces, sep) == pieces[0] + ([sep] + Join(pieces[1..], sep));
    }
  }

  /** No piece of a split contains the separator. */
  lemma {:induction false} SplitPiecesLackSeparator(s: string, sep: char)
    ensures forall k :: 0 <= k < |Split(s, sep)| ==> sep !in Split(s, sep)[k]
  {
    if s != [] {
      SplitPiecesLackSeparator(s[1..], sep);
    }
  }

  /** Splitting loses nothing: joining the pieces with the separator gives the string back. */
  lemma {:induction false} JoinSplit(s: string, sep: char)
    ensures Join(Split(s, sep), sep) == s
  {
    if s != [] {
      var rest := Split(s[1..], sep);
      JoinSplit(s[1..], sep);
      if s[0] != sep {
        var pieces := Split(s, sep);
        assert pieces[0] == [s[0]] + rest[0];
        if |rest| == 1 {
          assert pieces == [[s[0]] + rest[0]];
        } else {
          assert pieces[1..] == rest[1..];
          assert Join(rest, sep) == rest[0] + [sep] + Join(rest[1..], sep);
        }
      }
    }
  }

  /** A string without the separator splits into itself alone. */
  lemma {:induction false} SplitWithoutSeparator(s: string, sep: char)
    requires sep !in s
    ensures Split(s, sep) == [s]
  {
    if s != [] {
      SplitWithoutSeparator(s[1..], sep);
      assert [s[0]] + s[1..] == s;
    }
  }

  /** A separator splits the string into the pieces on its left followed by those on its right. */
  lemma {:induction false} SplitAtSeparator(a: string, sep: char, b: string)
    ensures Split(a + [sep] + b, sep) == Split(a, sep) + Split(b, sep)
  {
    var s := a + [sep] + b;
    if a == [] {
      assert s[0] == sep && s[1..] == b;
    } else {
      assert s[0] == a[0] && s[1..] == a[1..] + [sep] + b;
      SplitAtSeparator(a[1..], sep, b);
      var left := Split(a[1..], sep);
      var rest := left + Split(b, sep);
      assert Split(s[1..], sep) == rest;
      if a[0] != sep {
        assert rest[0] == left[0];
        assert rest[1..] == left[1..] + Split(b, sep);
        assert Split(a, sep) == [[a[0]] + left[0]] + left[1..];
      }
    }
  }

  /** Splitting undoes joining, provided no piece holds the separator. */
  lemma {:induction false} SplitJoin(pieces: seq<string>, sep: char)
    requires |pieces| >= 1
    requires forall k :: 0 <= k < |pieces| ==> sep !in pieces[k]
    ensures Split(Join(pieces, sep), sep) == pieces
  {
    SplitWithoutSeparator(pieces[0], sep);
    if |pieces| > 1 {
      SplitJoin(pieces[1..], sep);
      SplitAtSeparator(pieces[0], sep, Join(pieces[1..], sep));
    }
  }

  predicate IsDigit(c: char)
  {
    '0' <= c <= '9'
  }

  predicate AllDigits(s: string)
  {
    forall k :: 0 <= k < |s| ==> IsDigit(s[k])
  }

  /** The value of a string of decimal digits, most significant first. */
  function DigitsValue(s: string): nat
    requires AllDigits(s)
  {
    if s == [] then 0
    else
      assert IsDigit(s[|s| - 1]);
      10 * DigitsValue(s[..|s| - 1]) + (s[|s| - 1] as int - '0' as int)
  }

  /** The digits `parse::<usize>` reads: the text after one optional leading `+`. */
  function UnsignedPart(s: string): (digits: string)
    ensures |digits| <= |s|
  {
    if |s| > 0 && s[0] == '+' then s[1..] else s
  }

  /** What `s.parse::<usize>()` accepts: an optional leading `+`, then one or more decimal
      digits (leading zeros allowed) whose value fits in 64 bits. */
  function ParseUsize(s: string): (r: Option<usize>)
  {
    var digits := UnsignedPart(s);
    if |digits| == 0 || !AllDigits(digits) then None
    else
      var v := DigitsValue(digits);
      if v < USIZE_COUNT then Some(v) else None
  }

  /** `parse::<usize>` succeeds exactly when the string is a non-empty run of decimal digits,
      with or without one leading `+`, whose value is below 2^64; it then yields that value.
      Anything else (an empty string, a lone `+`, a `-` sign, any other character, an
      overflow) is an error. */
  lemma ParseUsizeSpec(s: string)
    ensures ParseUsize(s).Some? <==>
      exists d :: (s == d || s == "+" + d) && |d| > 0 && AllDigits(d) && DigitsValue(d) < USIZE_COUNT
    ensures forall d :: (s == d || s == "+" + d) && AllDigits(d) && ParseUsize(s).Some? ==>
      ParseUsize(s).value == DigitsValue(d)
  {
    var digits := UnsignedPart(s);
    if |s| > 0 && s[0] == '+' {
      assert s == "+" + digits;
      forall d | s == d ensures !AllDigits(d) {
        assert d[0] == '+';
      }
    }
    if ParseUsize(s).Some? {
      assert (s == digits || s == "+" + digits) && |digits| > 0 && AllDigits(digits);
    }
  }

  /** Concrete refusals: no digits, a lone sign, a minus sign, a letter. */
  lemma ParseRejects()
    ensures ParseUsize("").None? && ParseUsize("+").None? && ParseUsize("-1").None?
    ensures ParseUsize("x").None? && ParseUsize("+-1").None?
  {
    ParseRejectsNonDigit("-1", 0);
    ParseRejectsNonDigit("x", 0);
    ParseRejectsNonDigit("+-1", 1);
  }

  /** A string holding a character that is neither a digit nor a leading `+` does not parse. */
  lemma ParseRejectsNonDigit(s: string, k: nat)
    requires k < |s| && !IsDigit(s[k]) && !(k == 0 && s[k] == '+')
    ensures ParseUsize(s).None?
  {
    var digits := UnsignedPart(s);
    if |s| > 0 && s[0] == '+' {
      assert digits[k - 1] == s[k];
    } else {
      assert digits[k] == s[k];
    }
  }

  /** The canonical decimal rendering of `n`: no sign, no leading zeros. */
  function Decimal(n: nat): (s: string)
    ensures |s| >= 1
    ensures forall k :: 0 <= k < |s| ==> IsDigit(s[k])
  {
    if n < 10 then [('0' as int + n) as char]
    else Decimal(n / 10) + [('0' as int + n % 10) as char]
  }

  /** Every `usize` written in decimal parses back to itself. */
  lemma {:induction false} ParseDecimal(n: usize)
    ensures ParseUsize(Decimal(n)) == Some(n)
  {
    DecimalValue(n);
  }

  /** Leading `+` signs and leading zeros are accepted, as `str::parse` does. */
  lemma ParseSignedDecimal(n: usize)
    ensures ParseUsize("+" + Decimal(n)) == Some(n)
    ensures ParseUsize("0" + Decimal(n)) == Some(n)
  {
    var d := Decimal(n);
    DecimalValue(n);
    assert ("+" + d)[1..] == d;
    LeadingZero(d);
    assert AllDigits("0" + d) by {
      forall k | 0 <= k < |"0" + d| ensures IsDigit(("0" + d)[k]) {
        if k > 0 {
          assert ("0" + d)[k] == d[k - 1];
        }
      }
    }
  }

  lemma {:induction false} DecimalValue(n: nat)
    ensures DigitsValue(Decimal(n)) == n
  {
    if n >= 10 {
      var s := Decimal(n);
      assert s[..|s| - 1] == Decimal(n / 10);
      DecimalValue(n / 10);
    }
  }

  lemma {:induction false} LeadingZero(s: string)
    requires AllDigits(s)
    ensures DigitsValue("0" + s) == DigitsValue(s)
  {
    if s != [] {
      assert ("0" + s)[..|s|] == "0" + s[..|s| - 1];
      LeadingZero(s[..|s| - 1]);
    }
  }
}
