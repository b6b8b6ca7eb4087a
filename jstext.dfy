/**
 * The two JavaScript string operations the chat client relies on to read a
 * participant count: `String.prototype.split` with a non-empty string
 * separator, and `parseInt(s, 10)`, whose NaN result is `None` here.
 */
module JsText {
  import opened Wrappers
  import opened Text
  import Decimal

  /**
   * `s.split(sep)`: the pieces between successive leftmost occurrences of
   * `sep`. There is always at least one piece, and one more for every
   * occurrence.
   */
  function Split(s: string, sep: string): (r: seq<string>)
    requires |sep| > 0
    decreases |s|
    ensures |r| >= 1
  {
    match FindFrom(s, sep, 0)
    case None => [s]
    case Some(p) => [s[..p]] + Split(s[p + |sep|..], sep)
  }

  /** There is more than one piece exactly when the separator occurs. */
  lemma SplitMoreThanOne(s: string, sep: string)
    requires |sep| > 0
    ensures |Split(s, sep)| > 1 <==> Contains(s, sep)
  {
  }

  /** No piece of a split contains the separator. */
  lemma {:induction false} SplitPiecesFree(s: string, sep: string)
    requires |sep| > 0
    decreases |s|
    ensures forall k :: 0 <= k < |Split(s, sep)| ==> !Contains(Split(s, sep)[k], sep)
  {
    match FindFrom(s, sep, 0)
    case None =>
    case Some(p) =>
      SplitPiecesFree(s[p + |sep|..], sep);
      if Contains(s[..p], sep) {
        var i := FindFrom(s[..p], sep, 0).value;
        OccursInPrefix(s, sep, p, i);
      }
  }

  /** Splitting at the first occurrence of the separator. */
  lemma SplitFirst(s: string, sep: string, p: nat)
    requires |sep| > 0
    requires FindFrom(s, sep, 0) == Some(p)
    ensures |Split(s, sep)| == 1 + |Split(s[p + |sep|..], sep)|
    ensures Split(s, sep)[0] == s[..p]
    ensures Split(s, sep)[1] == Split(s[p + |sep|..], sep)[0]
  {
    var rest := Split(s[p + |sep|..], sep);
    assert Split(s, sep) == [s[..p]] + rest;
  }

  /** Joining the pieces back with the separator restores the string. */
  lemma {:induction false} SplitJoin(s: string, sep: string)
    requires |sep| > 0
    decreases |s|
    ensures Join(Split(s, sep), sep) == s
  {
    match FindFrom(s, sep, 0)
    case None =>
    case Some(p) =>
      var tail := s[p + |sep|..];
      var rest := Split(tail, sep);
      SplitJoin(tail, sep);
      assert Split(s, sep) == [s[..p]] + rest;
      assert ([s[..p]] + rest)[1..] == rest;
      assert s == s[..p] + sep + tail;
  }

  /** The characters `parseInt` skips before the number (white space and line terminators). */
  predicate IsWhiteSpace(c: char) {
    || c == '\t' || c == '\n' || c == '\U{000B}' || c == '\U{000C}' || c == '\r' || c == ' '
    || c == '\U{00A0}' || c == '\U{1680}' || ('\U{2000}' <= c <= '\U{200A}')
    || c == '\U{2028}' || c == '\U{2029}' || c == '\U{202F}' || c == '\U{205F}'
    || c == '\U{3000}' || c == '\U{FEFF}'
  }

  /** `s` without its leading white space. */
  function TrimStart(s: string): (r: string)
    ensures |r| <= |s| && r == s[|s| - |r|..]
    ensures forall i :: 0 <= i < |s| - |r| ==> IsWhiteSpace(s[i])
    ensures r == [] || !IsWhiteSpace(r[0])
  {
    if s != [] && IsWhiteSpace(s[0]) then TrimStart(s[1..]) else s
  }

  /** The longest prefix of `s` made of decimal digits. */
  function DigitRun(s: string): (r: string)
    ensures |r| <= |s| && r == s[..|r|]
    ensures Decimal.AllDigits(r)
    ensures |r| == |s| || !Decimal.IsDigit(s[|r|])
    ensures Decimal.AllDigits(s) ==> r == s
  {
    if s != [] && Decimal.IsDigit(s[0]) then [s[0]] + DigitRun(s[1..]) else []
  }

  /**
   * `parseInt(s, 10)`: skip leading white space, then read a signed number;
   * with no digit the result is NaN.
   */
  function ParseInt(s: string): (r: Option<int>)
    ensures Decimal.AllDigits(s) && s != [] ==> r == Some(Decimal.Value(s))
  {
    assert Decimal.AllDigits(s) && s != [] ==> !IsWhiteSpace(s[0]);
    ParseSigned(TrimStart(s))
  }

  /** An optional sign, then the longest run of decimal digits; NaN without a digit. */
  function ParseSigned(t: string): (r: Option<int>)
    ensures Decimal.AllDigits(t) && t != [] ==> r == Some(Decimal.Value(t))
    ensures r.Some? && r.value < 0 ==> t != [] && t[0] == '-'
  {
    var negative := t != [] && t[0] == '-';
    var unsigned := if t != [] && (t[0] == '-' || t[0] == '+') then t[1..] else t;
    var digits := DigitRun(unsigned);
    if digits == [] then None
    else
      var magnitude: int := Decimal.Value(digits);
      Some(if negative then -magnitude else magnitude)
  }

  /** The result is NaN exactly when no digit follows the white space and sign. */
  lemma ParseIntNaN(s: string)
    ensures var t := TrimStart(s);
      var unsigned := if t != [] && (t[0] == '-' || t[0] == '+') then t[1..] else t;
      ParseInt(s).None? <==> (unsigned == [] || !Decimal.IsDigit(unsigned[0]))
  {
  }

  /** Digits followed by text that does not start with a digit: the run is those digits. */
  lemma {:induction false} DigitRunOf(d: string, rest: string)
    requires Decimal.AllDigits(d)
    requires rest == [] || !Decimal.IsDigit(rest[0])
    ensures DigitRun(d + rest) == d
  {
    if d == [] {
      assert d + rest == rest;
    } else {
      DigitRunOf(d[1..], rest);
      assert (d + rest)[1..] == d[1..] + rest;
    }
  }

  /** Text that starts with a digit or a sign is not trimmed. */
  lemma TrimStartKeeps(s: string)
    requires s != [] && (Decimal.IsDigit(s[0]) || s[0] == '-' || s[0] == '+')
    ensures TrimStart(s) == s
  {
  }

  /** Unsigned text whose digit run is `d` reads as the value of `d`. */
  lemma ParseSignedUnsigned(t: string, d: string)
    requires t != [] && Decimal.IsDigit(t[0]) && DigitRun(t) == d
    ensures ParseSigned(t) == Some(Decimal.Value(d))
  {
  }

  /** A sign followed by text whose digit run is `d`. */
  lemma ParseSignedSigned(t: string, d: string)
    requires |t| >= 2 && (t[0] == '-' || t[0] == '+') && Decimal.IsDigit(t[1])
    requires DigitRun(t[1..]) == d
    ensures ParseSigned(t) == Some(if t[0] == '-' then -(Decimal.Value(d) as int) else Decimal.Value(d))
  {
  }

  /**
   * `parseInt` reads the digits up to the first character that is not one:
   * "12abc" is 12.
   */
  lemma ParseIntDigitsThenText(d: string, rest: string)
    requires Decimal.AllDigits(d) && d != []
    requires rest == [] || !Decimal.IsDigit(rest[0])
    ensures ParseInt(d + rest) == Some(Decimal.Value(d))
  {
    var t := d + rest;
    DigitRunOf(d, rest);
    assert Decimal.IsDigit(t[0]);
    TrimStartKeeps(t);
    ParseSignedUnsigned(t, d);
  }

  /** A leading minus sign negates what follows: "-7px" is -7. */
  lemma ParseIntMinusDigitsThenText(d: string, rest: string)
    requires Decimal.AllDigits(d) && d != []
    requires rest == [] || !Decimal.IsDigit(rest[0])
    ensures ParseInt("-" + (d + rest)) == Some(-(Decimal.Value(d) as int))
  {
    var t := "-" + (d + rest);
    DigitRunOf(d, rest);
    assert t[1..] == d + rest;
    TrimStartKeeps(t);
    ParseSignedSigned(t, d);
  }

  /** A leading plus sign is skipped: "+5 left" is 5. */
  lemma ParseIntPlusDigitsThenText(d: string, rest: string)
    requires Decimal.AllDigits(d) && d != []
    requires rest == [] || !Decimal.IsDigit(rest[0])
    ensures ParseInt("+" + (d + rest)) == Some(Decimal.Value(d))
  {
    var t := "+" + (d + rest);
    DigitRunOf(d, rest);
    assert t[1..] == d + rest;
    TrimStartKeeps(t);
    ParseSignedSigned(t, d);
  }

  /** Leading white space does not change what `parseInt` reads. */
  lemma ParseIntSkipsSpace(s: string)
    requires s != [] && IsWhiteSpace(s[0])
    ensures ParseInt(s) == ParseInt(s[1..])
  {
    assert TrimStart(s) == TrimStart(s[1..]);
  }

  /** The decimal text of a count parses back to that count. */
  lemma ParseIntFormat(n: nat)
    ensures ParseInt(Decimal.Format(n)) == Some(n)
  {
    Decimal.ValueOfFormat(n);
  }

  /** `parseInt(undefined)` reads the text "undefined", which has no digit: NaN. */
  lemma ParseIntUndefined()
    ensures ParseInt("undefined") == None
  {
    ParseIntNonNumericStart("undefined");
  }

  /** Text whose first character is neither white space, a sign nor a digit is NaN. */
  lemma ParseIntNonNumericStart(s: string)
    requires s != [] && !IsWhiteSpace(s[0]) && s[0] != '-' && s[0] != '+' && !Decimal.IsDigit(s[0])
    ensures ParseInt(s) == None
  {
    ParseIntNaN(s);
  }
}
