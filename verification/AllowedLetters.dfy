/** The letters a decoded label may hold (env_app.go), one by one and block by block, against the source's ranges. */
module AllowedLetters {
  import opened Punycode

  /** The small letters of Latin-1. */
  predicate SmallLatin1(r: int) {
    r in {
      0xDF, 0xE0, 0xE1, 0xE2, 0xE3, 0xE4, 0xE5, 0xE6, 0xE7, 0xE8, 0xE9, 0xEA, 0xEB, 0xEC, 0xED, 0xEE, 0xEF, 0xF0,
      0xF1, 0xF2, 0xF3, 0xF4, 0xF5, 0xF6, 0xF8, 0xF9, 0xFA, 0xFB, 0xFC, 0xFD, 0xFE, 0xFF}
  }

  /** Those of Latin Extended-A up to U+0137. */
  predicate SmallExtended(r: int) {
    r in {
      0x101, 0x103, 0x105, 0x107, 0x109, 0x10B, 0x10D, 0x10F, 0x111, 0x113, 0x115, 0x117, 0x119, 0x11B, 0x11D, 0x11F,
      0x121, 0x123, 0x125, 0x127, 0x129, 0x12B, 0x12D, 0x12F, 0x131, 0x135, 0x137}
  }

  /** And the rest, but for the three NFKC rewrites. */
  predicate SmallExtendedRest(r: int) {
    r in {
      0x138, 0x13A, 0x13C, 0x13E, 0x142, 0x144, 0x146, 0x148, 0x14B, 0x14D, 0x14F, 0x151, 0x153, 0x155, 0x157, 0x159,
      0x15B, 0x15D, 0x15F, 0x161, 0x163, 0x165, 0x167, 0x169, 0x16B, 0x16D, 0x16F, 0x171, 0x173, 0x175, 0x177, 0x17A,
      0x17C, 0x17E}
  }

  /** Between the first and the last letter of a block. */
  predicate Within(r: int, first: char, last: char) {
    first as int <= r <= last as int
  }

  lemma Latin1Letters(r: Rune)
    requires r < 0x100
    ensures StableLetter(r) <==> SmallLatin1(r)
  {
  }

  lemma ExtendedLetters(r: Rune)
    requires 0x100 <= r <= 0x137
    ensures StableLetter(r) <==> SmallExtended(r)
  {
    var q := r / 2;
    assert r == 2 * q || r == 2 * q + 1;
  }

  lemma ExtendedRestLetters(r: Rune)
    requires 0x138 <= r < 0x180
    ensures StableLetter(r) <==> SmallExtendedRest(r)
  {
    var q := r / 2;
    assert r == 2 * q || r == 2 * q + 1;
  }

  /** Past Latin Extended-A, six blocks whole: Greek and Cyrillic small letters, kana, ideographs, Hangul. */
  lemma OtherLetters(r: Rune)
    requires r >= 0x180
    ensures StableLetter(r) <==>
              || Within(r, '\U{3AC}', '\U{3CE}') || Within(r, '\U{430}', '\U{45F}')
              || Within(r, '\U{3041}', '\U{3096}') || Within(r, '\U{30A1}', '\U{30FA}')
              || Within(r, '\U{4E00}', '\U{9FFF}') || Within(r, '\U{AC00}', '\U{D7A3}')
  {
  }

  lemma PlainCharacters(r: Rune)
    ensures HyphenDigitOrLower(r) <==> exists j :: 0 <= j < 37 && "-0123456789abcdefghijklmnopqrstuvwxyz"[j] as int == r
  {
    var plain := "-0123456789abcdefghijklmnopqrstuvwxyz";
    assert forall j :: 1 <= j <= 10 ==> plain[j] as int == 47 + j;
    assert forall j :: 11 <= j < 37 ==> plain[j] as int == 86 + j;
    if HyphenDigitOrLower(r) {
      var j := if r == 45 then 0 else if r <= 57 then r - 47 else r - 86;
      assert plain[j] as int == r;
    }
  }

  /** A label is allowed when each of its characters is one of these, and one of them is not ASCII. */
  lemma AllowedLabelIs(text: seq<Rune>)
    ensures AllowedLabel(text) <==>
              && (forall j :: 0 <= j < |text| ==> HyphenDigitOrLower(text[j]) || StableLetter(text[j]))
              && exists j :: 0 <= j < |text| && text[j] >= 0x80
  {
    hide StableLetter, HyphenDigitOrLower;
    forall j | 0 <= j < |text| ensures text[j] in text {
    }
    forall r: Rune ensures StableLetter(r) ==> r >= 0x80 {
      StableIsNotAscii(r);
    }
    forall r: Rune ensures HyphenDigitOrLower(r) ==> r < 0x80 {
      PlainIsAscii(r);
    }
  }

  lemma StableIsNotAscii(r: Rune)
    ensures StableLetter(r) ==> r >= 0x80
  {
  }

  lemma PlainIsAscii(r: Rune)
    ensures HyphenDigitOrLower(r) ==> r < 0x80
  {
  }
}
