/** Masking of card numbers for display: everything but the last four
    characters is replaced by a fixed pattern. */
module CardMask {
  import opened Model

  /** What a number too short (or absent) to show any digits becomes. */
  const ShortMask: string := "****"

  /** The fixed text that stands in front of the last four characters. */
  const MaskPrefix: string := "**** **** **** "

  function LastFour(s: string): (r: string)
    requires |s| >= 4
    ensures |r| == 4 && s == s[..|s| - 4] + r
  {
    s[|s| - 4..]
  }

  /** The masked form of a card number; `None` is a null number. */
  function MaskCardNumber(fullNumber: Option<string>): (r: string)
    ensures fullNumber.None? || |fullNumber.value| < 4 ==> r == ShortMask
    ensures fullNumber.Some? && |fullNumber.value| >= 4 ==>
      |r| == 19 && r[..15] == MaskPrefix && r[15..] == LastFour(fullNumber.value)
  {
    if fullNumber.None? || |fullNumber.value| < 4 then ShortMask
    else MaskPrefix + fullNumber.value[|fullNumber.value| - 4..]
  }

  /** The character the mask puts at position i of the 15-character
      prefix: a space after every group of four stars. */
  function PrefixChar(i: int): char {
    if i % 5 == 4 then ' ' else '*'
  }

  /** Position by position: the first fifteen characters come from the
      fixed pattern, the last four from the end of the input, and no other
      input character reaches the output. */
  lemma MaskPositions(s: string)
    requires |s| >= 4
    ensures var r := MaskCardNumber(Some(s));
      |r| == 19 &&
      (forall i :: 0 <= i < 15 ==> r[i] == PrefixChar(i)) &&
      (forall i :: 15 <= i < 19 ==> r[i] == s[|s| - 19 + i])
  {
    var r := MaskCardNumber(Some(s));
    assert r[..15] == MaskPrefix;
    forall i | 0 <= i < 15 ensures r[i] == PrefixChar(i) {
      assert r[i] == r[..15][i] == MaskPrefix[i];
    }
    forall i | 15 <= i < 19 ensures r[i] == s[|s| - 19 + i] {
      assert r[i] == r[15..][i - 15];
    }
  }

  /** Two numbers with the same last four characters mask identically:
      the output depends on nothing else of the input. */
  lemma MaskDependsOnlyOnLastFour(s: string, t: string)
    requires |s| >= 4 && |t| >= 4
    ensures MaskCardNumber(Some(s)) == MaskCardNumber(Some(t)) <==> LastFour(s) == LastFour(t)
  {
    var rs, rt := MaskCardNumber(Some(s)), MaskCardNumber(Some(t));
    if LastFour(s) != LastFour(t) {
      assert rs[15..] != rt[15..];
    }
  }

  /** Masking a masked number changes nothing, for every number long
      enough to have its last four characters shown. */
  lemma MaskIdempotent(s: string)
    requires |s| >= 4
    ensures MaskCardNumber(Some(MaskCardNumber(Some(s)))) == MaskCardNumber(Some(s))
  {
    var r := MaskCardNumber(Some(s));
    assert LastFour(r) == r[15..];
    assert r == r[..15] + r[15..];
  }

  /** For short numbers masking is not idempotent: "****" itself is long
      enough to be masked again. */
  lemma MaskShortNotIdempotent()
    ensures MaskCardNumber(Some(MaskCardNumber(None))) != MaskCardNumber(None)
  {
    assert |MaskCardNumber(Some(ShortMask))| == 19;
  }
}
