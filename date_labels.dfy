/**
 * Chart labels: a stored `YYYY-MM-DD` date string becomes `M/D` by
 * splitting at '-' and reading the month and day parts with JavaScript's
 * `parseInt` (leading decimal digits; no digits gives NaN, rendered "NaN").
 */
module DateLabels {
  import opened Options

  /** `String.prototype.split` with a one-character separator. */
  function Split(s: string, sep: char): (parts: seq<string>)
    ensures |parts| >= 1
    ensures forall i :: 0 <= i < |parts| ==> sep !in parts[i]
    ensures Join(parts, sep) == s
  {
    if s == [] then [""]
    else if s[0] == sep then
      var rest := Split(s[1..], sep);
      assert [s[0]] + s[1..] == s;
      [""] + rest
    else
      var rest := Split(s[1..], sep);
      var r := [[s[0]] + rest[0]] + rest[1..];
      assert Join(r, sep) == s by {
        assert [s[0]] + s[1..] == s;
        assert r[1..] == rest[1..];
      }
      r
  }

  /** The parts glued back together with the separator between them. */
  function Join(parts: seq<string>, sep: char): string
    requires |parts| >= 1
  {
    if |parts| == 1 then parts[0] else parts[0] + [sep] + Join(parts[1..], sep)
  }

  /** Splitting undoes joining parts that do not contain the separator. */
  lemma {:induction false} SplitJoin(parts: seq<string>, sep: char)
    requires |parts| >= 1
    requires forall i :: 0 <= i < |parts| ==> sep !in parts[i]
    ensures Split(Join(parts, sep), sep) == parts
  {
    if |parts| == 1 {
      SplitNoSeparator(parts[0], sep);
    } else {
      SplitJoin(parts[1..], sep);
      SplitAfterPart(parts[0], sep, Join(parts[1..], sep));
      assert [parts[0]] + parts[1..] == parts;
    }
  }

  /** A string without the separator splits into itself alone. */
  lemma {:induction false} SplitNoSeparator(s: string, sep: char)
    requires sep !in s
    ensures Split(s, sep) == [s]
  {
    if s != [] {
      forall k | 0 <= k < |s[1..]|
        ensures s[1..][k] != sep
      {
        assert s[1..][k] == s[k + 1];
      }
      SplitNoSeparator(s[1..], sep);
      assert [s[0]] + s[1..] == s;
    }
  }

  /** A separator-free head followed by the separator splits off as one part. */
  lemma {:induction false} SplitAfterPart(a: string, sep: char, rest: string)
    requires sep !in a
    ensures Split(a + [sep] + rest, sep) == [a] + Split(rest, sep)
  {
    if a == [] {
      assert a + [sep] + rest == [sep] + rest;
      assert ([sep] + rest)[1..] == rest;
    } else {
      forall k | 0 <= k < |a[1..]|
        ensures a[1..][k] != sep
      {
        assert a[1..][k] == a[k + 1];
      }
      var t := a + [sep] + rest;
      assert t[0] == a[0] && a[0] != sep;
      assert t[1..] == a[1..] + [sep] + rest;
      SplitAfterPart(a[1..], sep, rest);
      var r := Split(t[1..], sep);
      assert r[0] == a[1..] && r[1..] == Split(rest, sep);
      assert [a[0]] + a[1..] == a;
      assert Split(t, sep) == [[t[0]] + r[0]] + r[1..];
    }
  }

  predicate IsDigit(c: char)
  {
    '0' <= c <= '9'
  }

  predicate AllDigits(d: string)
  {
    forall i :: 0 <= i < |d| ==> IsDigit(d[i])
  }

  function DigitChar(n: nat): (c: char)
    requires n < 10
    ensures IsDigit(c)
  {
    ('0' as int + n) as char
  }

  function DigitValue(c: char): (n: nat)
    requires IsDigit(c)
    ensures n < 10
  {
    c as int - '0' as int
  }

  /** The longest run of decimal digits at the front of `s`. */
  function LeadingDigits(s: string): (d: string)
    ensures |d| <= |s| && d == s[..|d|]
    ensures AllDigits(d)
    ensures |d| < |s| ==> !IsDigit(s[|d|])
  {
    if s == [] || !IsDigit(s[0]) then []
    else [s[0]] + LeadingDigits(s[1..])
  }

  /** The number a run of decimal digits denotes (leading zeros allowed). */
  function DigitsValue(d: string): nat
    requires AllDigits(d)
  {
    if d == [] then 0 else DigitsValue(d[..|d| - 1]) * 10 + DigitValue(d[|d| - 1])
  }

  /**
   * `parseInt` without a radix on a string that may be `undefined` (None):
   * the value of the leading digits, or NaN (None) when there are none.
   */
  function ParseInt(s: Option<string>): (r: Option<nat>)
    ensures r.None? <==> s.None? || s.value == [] || !IsDigit(s.value[0])
    ensures r.Some? ==> r.value == DigitsValue(LeadingDigits(s.value))
  {
    if s.None? then None
    else
      var d := LeadingDigits(s.value);
      if d == [] then None else Some(DigitsValue(d))
  }

  /** `String(n)` for a natural number: decimal digits with no leading zero. */
  function ShowNat(n: nat): (s: string)
    ensures |s| >= 1 && AllDigits(s)
    ensures |s| > 1 ==> s[0] != '0'
  {
    if n < 10 then [DigitChar(n)] else ShowNat(n / 10) + [DigitChar(n % 10)]
  }

  /** Reading back a rendered number gives the number. */
  lemma {:induction false} ShowNatValue(n: nat)
    ensures DigitsValue(ShowNat(n)) == n
  {
    if n >= 10 {
      ShowNatValue(n / 10);
      assert ShowNat(n)[..|ShowNat(n)| - 1] == ShowNat(n / 10);
    }
  }

  /** Leading zeros do not change the value of a digit run. */
  lemma {:induction false} LeadingZeroValue(d: string)
    requires AllDigits(d)
    ensures DigitsValue(['0'] + d) == DigitsValue(d)
  {
    if d != [] {
      LeadingZeroValue(d[..|d| - 1]);
      assert (['0'] + d)[..|d|] == ['0'] + d[..|d| - 1];
    }
  }

  /** `String(n).padStart(2, '0')`, as the date input's default value is built. */
  function Pad2(n: nat): (s: string)
    ensures AllDigits(s) && |s| >= 2
  {
    if n < 10 then ['0'] + ShowNat(n) else ShowNat(n)
  }

  /** A padded number parses back to the number. */
  lemma ParsePad2(n: nat)
    ensures ParseInt(Some(Pad2(n))) == Some(n)
  {
    AllDigitsLeading(Pad2(n));
    ShowNatValue(n);
    if n < 10 {
      LeadingZeroValue(ShowNat(n));
    }
  }

  /** A string of digits is its own leading digit run. */
  lemma {:induction false} AllDigitsLeading(d: string)
    requires AllDigits(d)
    ensures LeadingDigits(d) == d
  {
    if d != [] {
      AllDigitsLeading(d[1..]);
      assert [d[0]] + d[1..] == d;
    }
  }

  /** How `${n}` renders a `parseInt` result; reading the text back gives the same result. */
  function Render(r: Option<nat>): (text: string)
    ensures text != []
    ensures '/' !in text && '-' !in text
    ensures ParseInt(Some(text)) == r
  {
    match r
    case None => "NaN"
    case Some(n) =>
      ShowNatValue(n);
      AllDigitsLeading(ShowNat(n));
      NoSeparatorInDigits(ShowNat(n));
      NoSlashInDigits(ShowNat(n));
      ShowNat(n)
  }

  lemma NoSlashInDigits(d: string)
    requires AllDigits(d)
    ensures '/' !in d
  {
    forall i | 0 <= i < |d|
      ensures d[i] != '/'
    {
      assert IsDigit(d[i]);
    }
  }

  /** The item at `i` of a split, `undefined` (None) past the end. */
  function PartAt(parts: seq<string>, i: nat): Option<string>
  {
    if i < |parts| then Some(parts[i]) else None
  }

  /**
   * `formatDate`: "" for an empty string; otherwise the month part and the
   * day part, each read with `parseInt`, around the one '/' of the label.
   */
  function FormatDate(s: string): (text: string)
    ensures text == [] <==> s == []
    ensures s != [] ==>
      exists k :: 0 <= k < |text| && text[k] == '/' && '/' !in text[..k] && '/' !in text[k + 1..]
  {
    if s == [] then ""
    else
      var parts := Split(s, '-');
      var month := Render(ParseInt(PartAt(parts, 1)));
      var day := Render(ParseInt(PartAt(parts, 2)));
      var text := month + "/" + day;
      assert text[..|month|] == month && text[|month| + 1..] == day;
      text
  }

  /**
   * The label of any date string, given as the fields it is made of: the
   * second and third fields, each read with `parseInt`, `NaN` where a field
   * is missing or does not start with a digit.
   */
  lemma FormatFields(parts: seq<string>)
    requires |parts| >= 1
    requires forall i :: 0 <= i < |parts| ==> '-' !in parts[i]
    requires Join(parts, '-') != []
    ensures FormatDate(Join(parts, '-'))
         == Render(ParseInt(PartAt(parts, 1))) + "/" + Render(ParseInt(PartAt(parts, 2)))
  {
    SplitJoin(parts, '-');
  }

  /** A date string without '-' shows NaN for both month and day. */
  lemma FormatYearOnly(y: string)
    requires y != [] && '-' !in y
    ensures FormatDate(y) == "NaN/NaN"
  {
    SplitNoSeparator(y, '-');
    assert PartAt(Split(y, '-'), 1).None? && PartAt(Split(y, '-'), 2).None?;
  }

  /** A date string with a year and a month but no day shows NaN for the day. */
  lemma FormatWithoutDay(y: string, m: nat)
    requires '-' !in y
    ensures FormatDate(y + "-" + Pad2(m)) == ShowNat(m) + "/NaN"
  {
    var s := y + "-" + Pad2(m);
    assert |s| > 0;
    SplitTwo(y, Pad2(m));
    FormatTwoParts(s, y, Pad2(m));
    ParsePad2(m);
  }

  /** A date string that splits into two parts shows its second and NaN. */
  lemma FormatTwoParts(s: string, a: string, b: string)
    requires s != [] && Split(s, '-') == [a, b]
    ensures FormatDate(s) == Render(ParseInt(Some(b))) + "/NaN"
  {
    var parts := Split(s, '-');
    assert PartAt(parts, 1) == Some(b) && PartAt(parts, 2) == None;
    assert Render(None) == "NaN";
    assert "/" + "NaN" == "/NaN";
    assert Render(ParseInt(Some(b))) + "/" + "NaN" == Render(ParseInt(Some(b))) + "/NaN";
  }

  lemma SplitTwo(a: string, b: string)
    requires '-' !in a && AllDigits(b)
    ensures Split(a + "-" + b, '-') == [a, b]
  {
    NoSeparatorInDigits(b);
    assert [a, b][1..] == [b];
    assert Join([a, b], '-') == a + "-" + b;
    SplitJoin([a, b], '-');
  }

  /**
   * The format the date input is given (`year-MM-DD`, month and day padded
   * to two digits) becomes month "/" day with the padding removed.
   */
  lemma FormatIsoDate(y: nat, m: nat, d: nat)
    ensures FormatDate(ShowNat(y) + "-" + Pad2(m) + "-" + Pad2(d)) == ShowNat(m) + "/" + ShowNat(d)
  {
    var s := ShowNat(y) + "-" + Pad2(m) + "-" + Pad2(d);
    SplitThree(ShowNat(y), Pad2(m), Pad2(d));
    FormatThreeParts(s, ShowNat(y), Pad2(m), Pad2(d));
    ParsePad2(m);
    ParsePad2(d);
  }

  /** A date string that splits into three parts shows its second and third. */
  lemma FormatThreeParts(s: string, a: string, b: string, c: string)
    requires s != [] && Split(s, '-') == [a, b, c]
    ensures FormatDate(s) == Render(ParseInt(Some(b))) + "/" + Render(ParseInt(Some(c)))
  {
  }

  /** Three digit runs joined by '-' split back into the three runs. */
  lemma SplitThree(a: string, b: string, c: string)
    requires AllDigits(a) && AllDigits(b) && AllDigits(c)
    ensures Split(a + "-" + b + "-" + c, '-') == [a, b, c]
  {
    var parts := [a, b, c];
    NoSeparatorInDigits(a);
    NoSeparatorInDigits(b);
    NoSeparatorInDigits(c);
    assert parts[1..] == [b, c] && parts[1..][1..] == [c];
    calc {
      Join(parts, '-');
      a + ['-'] + Join([b, c], '-');
      a + ['-'] + (b + ['-'] + c);
      a + "-" + b + "-" + c;
    }
    SplitJoin(parts, '-');
  }

  lemma NoSeparatorInDigits(d: string)
    requires AllDigits(d)
    ensures '-' !in d
  {
    forall i | 0 <= i < |d|
      ensures d[i] != '-'
    {
      assert IsDigit(d[i]);
    }
  }
}
