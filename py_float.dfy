/** `float()` on a string, as far as whole numbers go: the string is stripped of
    whitespace, may carry a sign, and may separate its digits with single underscores. */
module PyFloat {
  import opened Wrappers
  import opened Decimal

  /** The characters `float` strips from both ends of a string (the ASCII ones). */
  predicate IsSpace(c: char) {
    c == ' ' || c == '\t' || c == '\n' || c == '\r' || c == '\U{0B}' || c == '\U{0C}'
    || c == '\U{1C}' || c == '\U{1D}' || c == '\U{1E}' || c == '\U{1F}'
  }

  function TrimStart(s: string): (t: string)
    ensures |t| <= |s| && t == s[|s| - |t|..]
    ensures t != [] ==> !IsSpace(t[0])
    decreases |s|
  {
    if s != [] && IsSpace(s[0]) then TrimStart(s[1..]) else s
  }

  function TrimEnd(s: string): (t: string)
    ensures |t| <= |s| && t == s[..|t|]
    ensures t != [] ==> !IsSpace(t[|t| - 1])
    decreases |s|
  {
    if s != [] && IsSpace(s[|s| - 1]) then TrimEnd(s[..|s| - 1]) else s
  }

  /** Digits with single `_` separators between them, as Python number literals allow. */
  predicate DigitGroups(s: string) {
    && |s| >= 1 && IsDigit(s[0]) && IsDigit(s[|s| - 1])
    && (forall i :: 0 <= i < |s| ==> IsDigit(s[i]) || s[i] == '_')
    && (forall i :: 0 <= i < |s| - 1 ==> s[i] == '_' ==> s[i + 1] != '_')
  }

  function DropUnderscores(s: string): (t: string)
    ensures (forall i :: 0 <= i < |s| ==> IsDigit(s[i]) || s[i] == '_') ==>
              forall i :: 0 <= i < |t| ==> IsDigit(t[i])
    ensures |s| > 0 && IsDigit(s[0]) ==> |t| > 0
    decreases |s|
  {
    if s == [] then []
    else (if s[0] == '_' then [] else [s[0]]) + DropUnderscores(s[1..])
  }

  /** The whole-number strings `float` accepts: surrounding whitespace, an optional sign,
      and digit groups. */
  function WholeNumber(s: string): Option<int> {
    SignedDigits(TrimEnd(TrimStart(s)))
  }

  /** An optional sign followed by digit groups. */
  function SignedDigits(t: string): Option<int> {
    var body := if |t| > 0 && (t[0] == '-' || t[0] == '+') then t[1..] else t;
    if !DigitGroups(body) then None
    else
      var n: int := ParseDigits(DropUnderscores(body));
      Some(if |t| > 0 && t[0] == '-' then -n else n)
  }

  /** A string with no whitespace at either end is read as it stands. */
  lemma WholeNumberTrimmed(t: string)
    requires t != [] && !IsSpace(t[0]) && !IsSpace(t[|t| - 1])
    ensures WholeNumber(t) == SignedDigits(t)
  {
    assert TrimStart(t) == t;
    assert TrimEnd(t) == t;
  }

  lemma Unsigned(t: string)
    requires t != [] && t[0] != '-' && t[0] != '+' && DigitGroups(t)
    ensures SignedDigits(t) == Some(ParseDigits(DropUnderscores(t)))
  {
  }

  lemma Negated(t: string)
    requires t != [] && t[0] == '-' && DigitGroups(t[1..])
    ensures SignedDigits(t) == Some(0 - ParseDigits(DropUnderscores(t[1..])))
  {
  }

  lemma DigitsAreGroups(s: string)
    requires AllDigits(s)
    ensures DigitGroups(s) && DropUnderscores(s) == s
  {
    DropDigits(s);
  }

  /** A string of ASCII digits is read as its decimal value. */
  lemma WholeNumberOfDigits(s: string)
    requires AllDigits(s)
    ensures WholeNumber(s) == Some(ParseDigits(s))
  {
    WholeNumberTrimmed(s);
    DigitsAreGroups(s);
    Unsigned(s);
  }

  lemma WholeNumberDigits(n: nat)
    ensures WholeNumber(NatToString(n)) == Some(n)
  {
    NatToStringDigits(n);
    ParseNatToString(n);
    WholeNumberOfDigits(NatToString(n));
  }

  lemma {:induction false} DropDigits(s: string)
    requires forall i :: 0 <= i < |s| ==> IsDigit(s[i])
    ensures DropUnderscores(s) == s
    decreases |s|
  {
    if s != [] {
      DropDigits(s[1..]);
      assert [s[0]] + s[1..] == s;
    }
  }

  /** `float` skips whitespace before a number: `" 60"` is one minute. */
  lemma WholeNumberSpaced(s: string)
    requires AllDigits(s)
    ensures WholeNumber(" " + s) == Some(ParseDigits(s))
  {
    assert (" " + s)[1..] == s;
    assert TrimStart(" " + s) == TrimStart(s);
    WholeNumberOfDigits(s);
  }

  /** A `-` before the digits negates the number. */
  lemma WholeNumberNegative(s: string)
    requires AllDigits(s)
    ensures WholeNumber("-" + s) == Some(0 - ParseDigits(s))
  {
    var t := "-" + s;
    assert t[0] == '-' && t[|t| - 1] == s[|s| - 1] && t[1..] == s;
    WholeNumberTrimmed(t);
    DigitsAreGroups(s);
    Negated(t);
  }

  /** A single `_` between two runs of digits is a separator: `"1_800"` is half an hour. */
  lemma WholeNumberSeparated(a: string, b: string)
    requires AllDigits(a) && AllDigits(b)
    ensures WholeNumber(a + "_" + b) == Some(ParseDigits(a + b))
  {
    var t := a + "_" + b;
    assert t[0] == a[0] && t[|t| - 1] == b[|b| - 1];
    WholeNumberTrimmed(t);
    SeparatedGroups(a, b);
    SeparatedDrop(a, b);
    Unsigned(t);
  }

  lemma SeparatedGroups(a: string, b: string)
    requires AllDigits(a) && AllDigits(b)
    ensures DigitGroups(a + "_" + b)
  {
    var t := a + "_" + b;
    forall i | 0 <= i < |t|
      ensures if i == |a| then t[i] == '_' else IsDigit(t[i])
    {
      if i < |a| { assert t[i] == a[i]; }
      else if i > |a| { assert t[i] == b[i - |a| - 1]; }
    }
  }

  lemma SeparatedDrop(a: string, b: string)
    requires AllDigits(a) && AllDigits(b)
    ensures DropUnderscores(a + "_" + b) == a + b
  {
    assert a + "_" + b == a + ("_" + b);
    DropAppend(a, "_" + b);
    assert ("_" + b)[0] == '_' && ("_" + b)[1..] == b;
    assert DropUnderscores("_" + b) == DropUnderscores(b);
    DropDigits(a);
    DropDigits(b);
  }

  /** Two separators in a row are rejected, so `"1__800"` is written as it is. */
  lemma WholeNumberDoubleSeparator(a: string, b: string)
    requires AllDigits(a) && AllDigits(b)
    ensures WholeNumber(a + "__" + b) == None
  {
    var t := a + "__" + b;
    assert t[0] == a[0] && t[|t| - 1] == b[|b| - 1];
    WholeNumberTrimmed(t);
    assert t[|a|] == '_' && t[|a| + 1] == '_';
    assert !DigitGroups(t);
  }

  lemma {:induction false} DropAppend(x: string, y: string)
    ensures DropUnderscores(x + y) == DropUnderscores(x) + DropUnderscores(y)
    decreases |x|
  {
    if x != [] {
      assert (x + y)[1..] == x[1..] + y;
      DropAppend(x[1..], y);
    } else {
      assert x + y == y;
    }
  }
}
