/** Semantic versions as text (litefs/domain/binary.py, `BinaryVersion`). */
module BinaryVersions {
  import opened Wrappers
  import opened Text

  datatype VersionError = BadFormat | NonNumeric | NegativeComponent

  datatype BinaryVersion = BinaryVersion(major: int, minor: int, patch: int) {
    predicate Valid() {
      major >= 0 && minor >= 0 && patch >= 0
    }
  }

  // ---------- Numbers ----------

  predicate IsDigit(c: char) {
    '0' <= c <= '9'
  }

  function DigitValue(c: char): nat
    requires IsDigit(c)
  {
    c as int - '0' as int
  }

  function DigitChar(d: int): (c: char)
    requires 0 <= d < 10
    ensures IsDigit(c) && DigitValue(c) == d
  {
    ('0' as int + d) as char
  }

  /** `str(n)`. */
  function PrintNat(n: nat): string {
    if n < 10 then [DigitChar(n)] else PrintNat(n / 10) + [DigitChar(n % 10)]
  }

  /** Digits, single underscores between digits; the value of the text read so far, or None. */
  function DigitsValue(s: string): Option<nat> {
    if s == [] then None
    else
      var before, c := s[..|s| - 1], s[|s| - 1];
      if !IsDigit(c) then None
      else if before == [] then Some(DigitValue(c))
      else
        var digits := if before[|before| - 1] == '_' then before[..|before| - 1] else before;
        var v := DigitsValue(digits);
        if v.None? then None else Some(10 * v.value + DigitValue(c))
  }

  function Signed(sign: char, n: nat): int {
    if sign == '-' then 0 - n else n
  }

  /** `int(s)` on ASCII text: surrounding blanks and one sign are accepted. */
  function ParseInt(s: string): Option<int> {
    var t := Strip(s);
    if t != [] && (t[0] == '+' || t[0] == '-') then
      var v := DigitsValue(t[1..]);
      if v.None? then None else Some(Signed(t[0], v.value))
    else
      var v := DigitsValue(t);
      if v.None? then None else Some(v.value)
  }

  // ---------- Versions ----------

  /** `s.split(".")`. */
  function SplitDots(s: string): (parts: seq<string>)
    ensures parts != []
  {
    if s == [] then [[]]
    else
      var rest := SplitDots(s[1..]);
      if s[0] == '.' then [[]] + rest else [[s[0]] + rest[0]] + rest[1..]
  }

  /** `s.lstrip("v")`. */
  function StripV(s: string): string {
    if s != [] && s[0] == 'v' then StripV(s[1..]) else s
  }

  function FromString(s: string): Result<BinaryVersion, VersionError> {
    var parts := SplitDots(StripV(s));
    if |parts| != 3 then Err(BadFormat)
    else
      var major, minor, patch := ParseInt(parts[0]), ParseInt(parts[1]), ParseInt(parts[2]);
      if major.None? || minor.None? || patch.None? then Err(NonNumeric)
      else if major.value < 0 || minor.value < 0 || patch.value < 0 then Err(NegativeComponent)
      else Ok(BinaryVersion(major.value, minor.value, patch.value))
  }

  /** `str(v)`. */
  function ToString(v: BinaryVersion): string
    requires v.Valid()
  {
    PrintNat(v.major) + ("." + (PrintNat(v.minor) + ("." + PrintNat(v.patch))))
  }

  // ---------- Round trip ----------

  predicate AllDigits(s: string) {
    s != [] && forall i :: 0 <= i < |s| ==> IsDigit(s[i])
  }

  lemma {:induction false} PrintedParses(n: nat)
    ensures AllDigits(PrintNat(n)) && DigitsValue(PrintNat(n)) == Some(n)
  {
    var s := PrintNat(n);
    if n < 10 {
      assert s[..|s| - 1] == [];
    } else {
      PrintedParses(n / 10);
      var before := PrintNat(n / 10);
      assert s[..|s| - 1] == before;
      assert IsDigit(before[|before| - 1]);
      assert n == 10 * (n / 10) + n % 10;
    }
  }

  lemma DigitsParse(s: string)
    requires AllDigits(s) && DigitsValue(s).Some?
    ensures ParseInt(s) == Some(DigitsValue(s).value)
  {
  }

  lemma {:induction false} SplitAtFirstDot(s: string, rest: string)
    requires '.' !in s
    ensures SplitDots(s + ("." + rest)) == [s] + SplitDots(rest)
  {
    var t := s + ("." + rest);
    if s == [] {
      assert t == "." + rest && t[1..] == rest;
    } else {
      SplitAtFirstDot(s[1..], rest);
      assert t[1..] == s[1..] + ("." + rest);
      var parts := [s[1..]] + SplitDots(rest);
      assert parts[1..] == SplitDots(rest) && parts[0] == s[1..];
      assert [s[0]] + s[1..] == s;
    }
  }

  lemma {:induction false} NoDots(s: string)
    requires '.' !in s
    ensures SplitDots(s) == [s]
  {
    if s != [] {
      NoDots(s[1..]);
      assert [s[0]] + s[1..] == s;
      assert [s[1..]][1..] == [];
    }
  }

  lemma {:induction false} VsStripped(vs: string, s: string)
    requires (forall i :: 0 <= i < |vs| ==> vs[i] == 'v') && (s != [] ==> s[0] != 'v')
    ensures StripV(vs + s) == s
  {
    if vs == [] {
      assert vs + s == s;
    } else {
      assert (vs + s)[1..] == vs[1..] + s;
      VsStripped(vs[1..], s);
    }
  }

  lemma NumberParses(n: nat)
    ensures ParseInt(PrintNat(n)) == Some(n) && '.' !in PrintNat(n) && PrintNat(n) != [] && PrintNat(n)[0] != 'v'
  {
    PrintedParses(n);
    DigitsParse(PrintNat(n));
    assert forall c :: IsDigit(c) ==> c != '.';
    assert IsDigit(PrintNat(n)[0]);
  }

  lemma VersionSplits(a: string, b: string, c: string)
    requires '.' !in a && '.' !in b && '.' !in c
    ensures SplitDots(a + ("." + (b + ("." + c)))) == [a, b, c]
  {
    SplitAtFirstDot(a, b + ("." + c));
    SplitAtFirstDot(b, c);
    NoDots(c);
  }

  lemma ThreeNumbers(s: string, parts: seq<string>, v: BinaryVersion)
    requires |parts| == 3 && SplitDots(StripV(s)) == parts && v.Valid()
    requires ParseInt(parts[0]) == Some(v.major) && ParseInt(parts[1]) == Some(v.minor) && ParseInt(parts[2]) == Some(v.patch)
    ensures FromString(s) == Ok(v)
  {
  }

  lemma PrintedVersionSplits(v: BinaryVersion)
    requires v.Valid()
    ensures ToString(v) != [] && ToString(v)[0] != 'v'
    ensures SplitDots(ToString(v)) == [PrintNat(v.major), PrintNat(v.minor), PrintNat(v.patch)]
  {
    NumberParses(v.major);
    NumberParses(v.minor);
    NumberParses(v.patch);
    VersionSplits(PrintNat(v.major), PrintNat(v.minor), PrintNat(v.patch));
  }

  /** Printing and reading back gives the version, with any number of `v`s in front. */
  lemma RoundTrip(v: BinaryVersion, vs: string)
    requires v.Valid() && forall i :: 0 <= i < |vs| ==> vs[i] == 'v'
    ensures FromString(vs + ToString(v)) == Ok(v)
  {
    PrintedVersionSplits(v);
    VsStripped(vs, ToString(v));
    var parts := [PrintNat(v.major), PrintNat(v.minor), PrintNat(v.patch)];
    assert ParseInt(parts[0]) == Some(v.major) by { NumberParses(v.major); }
    assert ParseInt(parts[1]) == Some(v.minor) by { NumberParses(v.minor); }
    assert ParseInt(parts[2]) == Some(v.patch) by { NumberParses(v.patch); }
    ThreeNumbers(vs + ToString(v), parts, v);
  }

  /** So different versions print differently. */
  lemma PrintingIsInjective(v: BinaryVersion, w: BinaryVersion)
    requires v.Valid() && w.Valid() && ToString(v) == ToString(w)
    ensures v == w
  {
    assert "" + ToString(v) == ToString(v) && "" + ToString(w) == ToString(w);
    RoundTrip(v, "");
    RoundTrip(w, "");
  }

  // ---------- What is accepted, and what is not ----------

  lemma DigitTable(c: char, d: int)
    ensures IsDigit(c) <==> c in {'0', '1', '2', '3', '4', '5', '6', '7', '8', '9'}
    ensures 0 <= d < 10 ==> DigitChar(d) == "0123456789"[d]
  {
  }

  /** Digits, with single underscores only between them. */
  predicate NumeralText(s: string) {
    && s != [] && IsDigit(s[0]) && IsDigit(s[|s| - 1])
    && (forall i :: 0 <= i < |s| ==> IsDigit(s[i]) || s[i] == '_')
    && (forall i :: 0 < i < |s| ==> s[i] != '_' || s[i - 1] != '_')
  }

  /** The decimal value of the digits, underscores passed over. */
  function DecimalValue(s: string): nat {
    if s == [] then 0
    else
      var before, c := s[..|s| - 1], s[|s| - 1];
      if IsDigit(c) then 10 * DecimalValue(before) + DigitValue(c) else DecimalValue(before)
  }

  /** A last digit, with or without an underscore before it, makes a numeral of a numeral and of nothing else. */
  lemma NumeralStep(digits: string, c: char)
    requires IsDigit(c)
    ensures NumeralText(digits + "_" + [c]) <==> NumeralText(digits)
    ensures digits != [] && digits[|digits| - 1] != '_' ==> (NumeralText(digits + [c]) <==> NumeralText(digits))
  {
    var s, t := digits + "_" + [c], digits + [c];
    var n := |digits|;
    assert s[n] == '_' && s[n + 1] == c && t[n] == c;
    assert forall i :: 0 <= i < n ==> s[i] == digits[i] && t[i] == digits[i];
    if NumeralText(s) {
      assert n > 0 && s[n - 1] != '_' && digits[n - 1] == s[n - 1];
    }
  }

  lemma {:induction false} DigitsExact(s: string)
    ensures DigitsValue(s).Some? <==> NumeralText(s)
    ensures NumeralText(s) ==> DigitsValue(s) == Some(DecimalValue(s))
  {
    if s != [] && IsDigit(s[|s| - 1]) && |s| > 1 {
      var before, c := s[..|s| - 1], s[|s| - 1];
      assert s == before + [c];
      if before[|before| - 1] == '_' {
        var digits := before[..|before| - 1];
        assert before == digits + "_" && s == digits + "_" + [c];
        NumeralStep(digits, c);
        DigitsExact(digits);
      } else {
        NumeralStep(before, c);
        DigitsExact(before);
      }
    }
  }

  /** Surrounding blanks, at most one sign, and a numeral. */
  predicate IntegerText(s: string) {
    var t := Strip(s);
    NumeralText(t) || (t != [] && (t[0] == '+' || t[0] == '-') && NumeralText(t[1..]))
  }

  function IntegerValue(s: string): int {
    var t := Strip(s);
    if t != [] && t[0] == '-' then 0 - DecimalValue(t[1..])
    else if t != [] && t[0] == '+' then DecimalValue(t[1..])
    else DecimalValue(t)
  }

  lemma ParseExact(s: string)
    ensures ParseInt(s) == if IntegerText(s) then Some(IntegerValue(s)) else None
  {
    var t := Strip(s);
    hide Strip, DigitsValue, DecimalValue;
    DigitsExact(t);
    if t != [] { DigitsExact(t[1..]); }
  }

  /** The parts put together again with dots. */
  function Joined(parts: seq<string>): string
    requires parts != []
  {
    if |parts| == 1 then parts[0] else parts[0] + ("." + Joined(parts[1..]))
  }

  /** Splitting takes the text apart at every dot and loses nothing. */
  lemma {:induction false} SplitExact(s: string)
    ensures Joined(SplitDots(s)) == s
    ensures forall part :: part in SplitDots(s) ==> '.' !in part
  {
    if s != [] {
      SplitExact(s[1..]);
      var rest := SplitDots(s[1..]);
      assert s == [s[0]] + s[1..];
      if s[0] == '.' {
        assert ([[]] + rest)[1..] == rest;
      } else {
        assert ([[s[0]] + rest[0]] + rest[1..])[1..] == rest[1..];
      }
    }
  }

  /** What a text is read as: an error of format unless two dots take it into three parts, an error of
      numbers unless each part is an integer, a rejection when one of them is negative, and otherwise the
      version with these three numbers. */
  lemma FromStringExact(s: string)
    ensures var parts := SplitDots(StripV(s));
            if |parts| != 3 then FromString(s) == Err(BadFormat)
            else if !(IntegerText(parts[0]) && IntegerText(parts[1]) && IntegerText(parts[2])) then FromString(s) == Err(NonNumeric)
            else if IntegerValue(parts[0]) < 0 || IntegerValue(parts[1]) < 0 || IntegerValue(parts[2]) < 0 then
              FromString(s) == Err(NegativeComponent)
            else FromString(s) == Ok(BinaryVersion(IntegerValue(parts[0]), IntegerValue(parts[1]), IntegerValue(parts[2])))
  {
    var parts := SplitDots(StripV(s));
    hide SplitDots, StripV, ParseInt, IntegerText, IntegerValue;
    if |parts| == 3 {
      ParseExact(parts[0]);
      ParseExact(parts[1]);
      ParseExact(parts[2]);
    }
  }
}
