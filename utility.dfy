/** utility.go: the pad-size letter accepted on the command line. */
module Utility {
  import opened Text
  import opened FeatureMasks

  /**
   * stringToFeaturePad: a one-character string naming a pad size, in either
   * case; anything else, including longer words, maps to the empty mask.
   */
  function StringToFeaturePad(padSize: string): (r: FeatureMask)
    ensures r == FeatLargePad <==> padSize == "L" || padSize == "l"
    ensures r == FeatMediumPad <==> padSize == "M" || padSize == "m"
    ensures r == FeatSmallPad <==> padSize == "S" || padSize == "s"
    ensures |padSize| != 1 ==> r == 0
    ensures r == 0 || r == FeatLargePad || r == FeatMediumPad || r == FeatSmallPad
  {
    if |padSize| == 1 then
      match UpperChar(padSize[0])
      case 'L' => FeatLargePad
      case 'M' => FeatMediumPad
      case 'S' => FeatSmallPad
      case _ => 0
    else 0
  }

  /** The letter that names each pad size. */
  function PadLetter(pad: FeatureMask): (c: char)
    requires pad == FeatLargePad || pad == FeatMediumPad || pad == FeatSmallPad
  {
    if pad == FeatLargePad then 'L' else if pad == FeatMediumPad then 'M' else 'S'
  }

  /** The result is never more than one pad bit. */
  lemma StringToFeaturePadSingleBit(padSize: string)
    ensures StringToFeaturePad(padSize) == 0 || SingleBit(StringToFeaturePad(padSize))
  {
    FeatureBits();
    assert FeatLargePad == Features[5] && FeatMediumPad == Features[6] && FeatSmallPad == Features[13];
  }

  /** Each pad size is read back from its letter, in upper or lower case. */
  lemma PadLetterRoundTrip(pad: FeatureMask)
    requires pad == FeatLargePad || pad == FeatMediumPad || pad == FeatSmallPad
    ensures StringToFeaturePad([PadLetter(pad)]) == pad
    ensures StringToFeaturePad([LowerChar(PadLetter(pad))]) == pad
  {
  }
}
