/** The selector parser of `parse_hex_string`: strip every leading "0x", then
    every leading "0X", and read what is left as an unsigned 16-bit number in
    base 16, exactly as Rust's `u16::from_str_radix(_, 16)` does. */
module HexParse {
  import opened Types

  /** The error reported for a selector that does not parse; it carries the
      text as the user wrote it, before any prefix was removed. */
  datatype HexError = InvalidHex(input: string)

  predicate StartsWith(s: string, prefix: string) {
    |prefix| <= |s| && s[..|prefix|] == prefix
  }

  /** `pat` written `k` times in a row. */
  function Repeat(pat: string, k: nat): (r: string)
  {
    if k == 0 then [] else pat + Repeat(pat, k - 1)
  }

  /** Rust's `str::trim_start_matches` for a non-empty string pattern: removes
      the pattern from the front for as long as it is there. */
  function TrimStartMatches(s: string, pat: string): (r: string)
    requires |pat| > 0
    ensures !StartsWith(r, pat)
    decreases |s|
  {
    if StartsWith(s, pat) then TrimStartMatches(s[|pat|..], pat) else s
  }

  /** How many copies of the pattern `trim_start_matches` removes. */
  function LeadingCopies(s: string, pat: string): (k: nat)
    requires |pat| > 0
    decreases |s|
  {
    if StartsWith(s, pat) then 1 + LeadingCopies(s[|pat|..], pat) else 0
  }

  /** What `trim_start_matches` removed is whole copies of the pattern. */
  lemma {:induction false} TrimmedPartIsRepeats(s: string, pat: string)
    requires |pat| > 0
    ensures s == Repeat(pat, LeadingCopies(s, pat)) + TrimStartMatches(s, pat)
    decreases |s|
  {
    if StartsWith(s, pat) {
      var rest := s[|pat|..];
      var r := TrimStartMatches(rest, pat);
      var k := LeadingCopies(rest, pat);
      TrimmedPartIsRepeats(rest, pat);
      calc {
        s;
        pat + rest;
        pat + (Repeat(pat, k) + r);
        (pat + Repeat(pat, k)) + r;
        Repeat(pat, k + 1) + r;
      }
    }
  }

  /** The text `parse_hex_string` hands to the number parser. */
  function Cleaned(s: string): (r: string)
    ensures !StartsWith(r, "0X")
    ensures !StartsWith(s, "0x") && !StartsWith(s, "0X") ==> r == s
  {
    TrimStartMatches(TrimStartMatches(s, "0x"), "0X")
  }

  predicate IsHexDigit(c: char) {
    ('0' <= c <= '9') || ('a' <= c <= 'f') || ('A' <= c <= 'F')
  }

  predicate AllHexDigits(s: string) {
    forall i :: 0 <= i < |s| ==> IsHexDigit(s[i])
  }

  function DigitValue(c: char): (d: nat)
    requires IsHexDigit(c)
    ensures d < 16
  {
    if '0' <= c <= '9' then c as int - '0' as int
    else if 'a' <= c <= 'f' then c as int - 'a' as int + 10
    else c as int - 'A' as int + 10
  }

  /** The number a string of hex digits denotes, most significant digit first. */
  function DigitsValue(ds: string): (v: nat)
    requires AllHexDigits(ds)
  {
    if ds == [] then 0
    else DigitsValue(ds[..|ds| - 1]) * 16 + DigitValue(ds[|ds| - 1])
  }

  /** Rust's `u16::from_str_radix(s, 16)`: one optional leading '+', then at
      least one hex digit, and nothing that overflows 16 bits.  A '-' is not a
      sign for an unsigned type, so it fails as a non-digit. */
  function FromStrRadix16(s: string): (r: Option<uint16>)
    ensures s == [] || s == "+" ==> r.None?
    ensures AllHexDigits(s) && s != [] ==> (r.Some? <==> DigitsValue(s) <= 0xFFFF)
    ensures AllHexDigits(s) && r.Some? ==> r.value as int == DigitsValue(s)
    ensures r.Some? ==> s != [] && (s[0] == '+' || IsHexDigit(s[0]))
  {
    var digits := if |s| > 0 && s[0] == '+' then s[1..] else s;
    if |digits| == 0 || !AllHexDigits(digits) then None
    else if DigitsValue(digits) > 0xFFFF then None
    else Some(DigitsValue(digits) as uint16)
  }

  /** `parse_hex_string`. */
  function ParseHexString(s: string): (r: Result<uint16, HexError>)
    ensures r.Err? ==> r.error == InvalidHex(s)
  {
    match FromStrRadix16(Cleaned(s))
    case Some(v) => Ok(v)
    case None => Err(InvalidHex(s))
  }

  /** Nothing left once the prefixes are gone, or only a sign, is refused:
      "0x", "0X", "0x0X", "+" and "0x+" all fail. */
  lemma {:induction false} EmptyRemainderFails(s: string)
    requires Cleaned(s) == [] || Cleaned(s) == "+"
    ensures ParseHexString(s) == Err(InvalidHex(s))
  {
  }

  /** A bare digit string parses exactly when it is non-empty and fits in
      16 bits, and then to the number it denotes. */
  lemma {:induction false} DigitsParse(ds: string)
    requires AllHexDigits(ds)
    ensures ParseHexString(ds).Ok? <==> ds != [] && DigitsValue(ds) <= 0xFFFF
    ensures ParseHexString(ds).Ok? ==> ParseHexString(ds).value as int == DigitsValue(ds)
  {
    if |ds| >= 2 {
      assert !StartsWith(ds, "0x") by { assert IsHexDigit(ds[1]); }
    }
    assert TrimStartMatches(ds, "0x") == ds;
    if |ds| >= 2 {
      assert !StartsWith(ds, "0X") by { assert IsHexDigit(ds[1]); }
    }
    assert Cleaned(ds) == ds;
  }

  /** One copy of the pattern in front is removed like the rest. */
  lemma {:induction false} TrimOneCopy(d: string, pat: string)
    requires |pat| > 0
    ensures TrimStartMatches(pat + d, pat) == TrimStartMatches(d, pat)
  {
    assert StartsWith(pat + d, pat);
    assert (pat + d)[|pat|..] == d;
  }

  /** Two selectors with the same cleaned text parse alike. */
  lemma {:induction false} SameCleanedParsesAlike(a: string, b: string)
    requires Cleaned(a) == Cleaned(b)
    ensures ParseHexString(a).Ok? == ParseHexString(b).Ok?
    ensures ParseHexString(a).Ok? ==> ParseHexString(a).value == ParseHexString(b).value
  {
  }

  /** "0X" in front is removed by the second trim, unless what follows starts
      with "0x": the first trim has already run by then. */
  lemma {:induction false} UpperPrefixCleaned(d: string)
    requires !StartsWith(d, "0x")
    ensures Cleaned("0X" + d) == Cleaned(d)
  {
    assert !StartsWith("0X" + d, "0x") by { assert ("0X" + d)[1] == 'X'; }
    assert TrimStartMatches("0X" + d, "0x") == "0X" + d;
    assert TrimStartMatches(d, "0x") == d;
    TrimOneCopy(d, "0X");
  }

  /** A "0x" prefix never changes the outcome, and neither does a "0X" prefix
      as long as what follows does not itself start with "0x". */
  lemma {:induction false} PrefixIrrelevant(d: string)
    ensures ParseHexString("0x" + d).Ok? == ParseHexString(d).Ok?
    ensures ParseHexString("0x" + d).Ok? ==> ParseHexString("0x" + d).value == ParseHexString(d).value
    ensures !StartsWith(d, "0x") ==> ParseHexString("0X" + d).Ok? == ParseHexString(d).Ok?
    ensures !StartsWith(d, "0x") && ParseHexString(d).Ok? ==> ParseHexString("0X" + d).value == ParseHexString(d).value
  {
    TrimOneCopy(d, "0x");
    SameCleanedParsesAlike("0x" + d, d);
    if !StartsWith(d, "0x") {
      UpperPrefixCleaned(d);
      SameCleanedParsesAlike("0X" + d, d);
    }
  }

  /** A digit string that fits in 16 bits parses to the number it denotes
      behind either prefix, as it does bare. */
  lemma {:induction false} PrefixedDigitsParse(ds: string)
    requires AllHexDigits(ds) && ds != [] && DigitsValue(ds) <= 0xFFFF
    ensures ParseHexString(ds) == Ok(DigitsValue(ds) as uint16)
    ensures ParseHexString("0x" + ds) == Ok(DigitsValue(ds) as uint16)
    ensures ParseHexString("0X" + ds) == Ok(DigitsValue(ds) as uint16)
  {
    DigitsParse(ds);
    if |ds| >= 2 {
      assert !StartsWith(ds, "0x") by { assert IsHexDigit(ds[1]); }
    }
    PrefixIrrelevant(ds);
  }

  /** Any number of "0x" copies and nothing else leaves an empty remainder,
      which is refused. */
  lemma {:induction false} OnlyPrefixesFail(k: nat)
    ensures TrimStartMatches(Repeat("0x", k), "0x") == []
    ensures ParseHexString(Repeat("0x", k)) == Err(InvalidHex(Repeat("0x", k)))
  {
    if k > 0 {
      OnlyPrefixesFail(k - 1);
      assert StartsWith(Repeat("0x", k), "0x");
      assert Repeat("0x", k)[2..] == Repeat("0x", k - 1);
    }
  }

  /** A character that is neither a hex digit nor the one leading '+' makes
      the selector invalid. */
  lemma {:induction false} NonHexFails(s: string, i: nat)
    requires i < |Cleaned(s)| && !IsHexDigit(Cleaned(s)[i])
    requires i > 0 || Cleaned(s)[i] != '+'
    ensures ParseHexString(s) == Err(InvalidHex(s))
  {
    var c := Cleaned(s);
    if |c| > 0 && c[0] == '+' {
      assert !IsHexDigit(c[1..][i - 1]);
    }
  }

  /** A digit string worth more than 0xFFFF is refused, with or without a
      prefix. */
  lemma {:induction false} TooLargeFails(ds: string)
    requires AllHexDigits(ds) && DigitsValue(ds) > 0xFFFF
    ensures ParseHexString(ds).Err? && ParseHexString("0x" + ds).Err? && ParseHexString("0X" + ds).Err?
  {
    DigitsParse(ds);
    if |ds| >= 2 {
      assert !StartsWith(ds, "0x") by { assert IsHexDigit(ds[1]); }
    }
    PrefixIrrelevant(ds);
  }

  /** The lower-case hex digit for `d`. */
  function LowerDigit(d: nat): (c: char)
    requires d < 16
    ensures IsHexDigit(c) && DigitValue(c) == d
  {
    if d < 10 then ('0' as int + d) as char else ('a' as int + d - 10) as char
  }

  /** The four lower-case hex digits the tool prints for an identifier
      (the `{:04x}` format of its diagnostics). */
  function Hex4(v: uint16): (r: string)
    ensures |r| == 4 && AllHexDigits(r)
  {
    var n := v as int;
    var q1 := n / 16;
    var q2 := q1 / 16;
    [LowerDigit(q2 / 16), LowerDigit(q2 % 16), LowerDigit(q1 % 16), LowerDigit(n % 16)]
  }

  /** The value of digits with one more digit appended. */
  lemma {:induction false} DigitsValueAppend(ds: string, c: char)
    requires AllHexDigits(ds) && IsHexDigit(c)
    ensures AllHexDigits(ds + [c])
    ensures DigitsValue(ds + [c]) == DigitsValue(ds) * 16 + DigitValue(c)
  {
    assert (ds + [c])[..|ds|] == ds;
  }

  /** The printed digits denote the identifier. */
  lemma {:induction false} Hex4Value(v: uint16)
    ensures DigitsValue(Hex4(v)) == v as int
  {
    var n := v as int;
    var q1 := n / 16;
    var q2 := q1 / 16;
    var c0, c1, c2, c3 := LowerDigit(q2 / 16), LowerDigit(q2 % 16), LowerDigit(q1 % 16), LowerDigit(n % 16);
    assert DigitsValue([c0]) == q2 / 16 by { assert [c0][..0] == []; }
    DigitsValueAppend([c0], c1);
    assert [c0] + [c1] == [c0, c1];
    DigitsValueAppend([c0, c1], c2);
    assert [c0, c1] + [c2] == [c0, c1, c2];
    DigitsValueAppend([c0, c1, c2], c3);
    assert [c0, c1, c2] + [c3] == Hex4(v);
  }

  /** Parsing what the tool prints gives back the identifier, bare or behind
      either prefix. */
  lemma {:induction false} HexRoundTrip(v: uint16)
    ensures ParseHexString(Hex4(v)) == Ok(v)
    ensures ParseHexString("0x" + Hex4(v)) == Ok(v)
    ensures ParseHexString("0X" + Hex4(v)) == Ok(v)
  {
    var h := Hex4(v);
    Hex4Value(v);
    DigitsParse(h);
    assert !StartsWith(h, "0x") by { assert IsHexDigit(h[1]); }
    PrefixIrrelevant(h);
  }

  /** The bare digits "1f" are 31. */
  lemma {:induction false} BareDigitsSample()
    ensures ParseHexString("1f") == Ok(31)
  {
    var d := "1f";
    assert AllHexDigits(d);
    assert d[..1] == "1";
    assert DigitsValue(d) == 31;
    DigitsParse(d);
  }

  /** Either prefix, and a repeated "0x" prefix, give the same number as the
      bare digits. */
  lemma {:induction false} PrefixedSamples()
    ensures ParseHexString("0x1f") == Ok(31)
    ensures ParseHexString("0X1f") == Ok(31)
    ensures ParseHexString("0x0x1f") == Ok(31)
  {
    BareDigitsSample();
    assert "0x1f" == "0x" + "1f" && "0X1f" == "0X" + "1f" && "0x0x1f" == "0x" + "0x1f";
    assert Cleaned("0x1f") == Cleaned("1f") by { TrimOneCopy("1f", "0x"); }
    SameCleanedParsesAlike("0x1f", "1f");
    assert Cleaned("0X1f") == Cleaned("1f") by {
      assert !StartsWith("1f", "0x") by { assert "1f"[..2][1] == 'f'; }
      UpperPrefixCleaned("1f");
    }
    SameCleanedParsesAlike("0X1f", "1f");
    assert Cleaned("0x0x1f") == Cleaned("0x1f") by { TrimOneCopy("0x1f", "0x"); }
    SameCleanedParsesAlike("0x0x1f", "0x1f");
  }

  /** "0X" in front of "0x" is not removed: the "0x" trim has already run, so
      the number parser meets the 'x'. */
  lemma {:induction false} TrimOrderSample()
    ensures ParseHexString("0X0x1f") == Err(InvalidHex("0X0x1f"))
  {
    assert Cleaned("0X0x1f") == "0x1f" by {
      assert !StartsWith("0X0x1f", "0x") by { assert "0X0x1f"[..2][1] == 'X'; }
      assert TrimStartMatches("0X0x1f", "0x") == "0X0x1f";
      TrimOneCopy("0x1f", "0X");
      assert "0X0x1f" == "0X" + "0x1f";
      assert !StartsWith("0x1f", "0X") by { assert "0x1f"[..2][1] == 'x'; }
    }
    assert !AllHexDigits("0x1f") by { assert !IsHexDigit("0x1f"[1]); }
  }

  /** A prefix with nothing after it is refused. */
  lemma {:induction false} EmptyRemainderSample()
    ensures ParseHexString("0x") == Err(InvalidHex("0x"))
  {
    OnlyPrefixesFail(1);
    assert Repeat("0x", 1) == "0x";
  }

  /** The number parser takes one leading '+'. */
  lemma {:induction false} PlusSignSample()
    ensures ParseHexString("+1f") == Ok(31)
  {
    assert Cleaned("+1f") == "+1f" by {
      assert !StartsWith("+1f", "0x") by { assert "+1f"[..2][0] == '+'; }
      assert !StartsWith("+1f", "0X") by { assert "+1f"[..2][0] == '+'; }
    }
    assert "+1f"[1..] == "1f";
    assert AllHexDigits("1f");
    assert "1f"[..1] == "1";
    assert DigitsValue("1f") == 31;
  }
}
