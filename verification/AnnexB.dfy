/**
 The scanner that finds the first sequence parameter set in H.264 codec data and names its
 codec (CameraH264Encoder.kt). Start codes are those of ITU-T H.264 Annex B, the codec
 string is that of RFC 6381 section 3.3.
 */
module AnnexB {
  import opened Prelude
  import Hex

  const SPS: nat := 7
  const DEFAULT_CODEC: string := "avc1.42E01E"

  /** A three-byte start code 00 00 01. */
  predicate StartCode(csd: Bytes, j: nat) {
    j + 3 <= |csd| && csd[j] == 0 && csd[j + 1] == 0 && csd[j + 2] == 1
  }

  /** A start code whose NAL unit is a parameter set with its three identifying bytes present. */
  predicate SpsAt(csd: Bytes, j: nat) {
    StartCode(csd, j) && j + 6 < |csd| && csd[j + 3] % 32 == SPS
  }

  predicate FirstSps(csd: Bytes, j: nat) {
    SpsAt(csd, j) && forall k: nat :: k < j ==> !SpsAt(csd, k)
  }

  function Codec(profile: byte, constraints: byte, level: byte): string {
    "avc1." + Hex.TwoDigits(Hex.UPPER, profile) + Hex.TwoDigits(Hex.UPPER, constraints) + Hex.TwoDigits(Hex.UPPER, level)
  }

  /** The codec string loses nothing. */
  lemma CodecIsInjective(p: byte, c: byte, l: byte, p': byte, c': byte, l': byte)
    ensures Codec(p, c, l) == Codec(p', c', l') <==> p == p' && c == c' && l == l'
  {
    var s, s' := Codec(p, c, l), Codec(p', c', l');
    assert s[5..7] == Hex.TwoDigits(Hex.UPPER, p) && s'[5..7] == Hex.TwoDigits(Hex.UPPER, p');
    assert s[7..9] == Hex.TwoDigits(Hex.UPPER, c) && s'[7..9] == Hex.TwoDigits(Hex.UPPER, c');
    assert s[9..11] == Hex.TwoDigits(Hex.UPPER, l) && s'[9..11] == Hex.TwoDigits(Hex.UPPER, l');
    Hex.TablesAreTables();
    hide *;
    Hex.TwoDigitsInjective(Hex.UPPER, p, p');
    Hex.TwoDigitsInjective(Hex.UPPER, c, c');
    Hex.TwoDigitsInjective(Hex.UPPER, l, l');
  }

  /** Nothing starts inside the zeros and the one of a start code that is stepped over. */
  lemma JumpSkipsNothing(csd: Bytes, i: nat, zeros: nat)
    requires 2 <= zeros <= 3 && i + zeros < |csd|
    requires (forall k :: i <= k < i + zeros ==> csd[k] == 0) && csd[i + zeros] == 1
    ensures forall k: nat :: i <= k <= i + zeros ==> (StartCode(csd, k) <==> k == i + zeros - 2)
  {
  }

  function CodecAt(csd: Bytes, j: nat): string
    requires SpsAt(csd, j)
  {
    Codec(csd[j + 4], csd[j + 5], csd[j + 6])
  }

  /** What the scan returns: the codec of the first complete parameter set, or the default when there is none. */
  ghost predicate IsCodecOf(codec: string, csd: Bytes) {
    if exists j: nat :: SpsAt(csd, j)
    then exists j: nat :: FirstSps(csd, j) && codec == CodecAt(csd, j)
    else codec == DEFAULT_CODEC
  }

  /** That description leaves one answer. */
  lemma CodecIsDetermined(csd: Bytes, a: string, b: string)
    requires IsCodecOf(a, csd) && IsCodecOf(b, csd)
    ensures a == b
  {
    hide SpsAt, CodecAt;
    if exists j: nat :: SpsAt(csd, j) {
      var i: nat :| FirstSps(csd, i) && a == CodecAt(csd, i);
      var j: nat :| FirstSps(csd, j) && b == CodecAt(csd, j);
      assert !(i < j) && !(j < i);
    }
  }

  method AvcCodecString(csd: array<byte>) returns (codec: string)
    ensures IsCodecOf(codec, csd[..])
  {
    ghost var data := csd[..];
    var i := 0;
    while i <= csd.Length - 5
      invariant forall k: nat :: k < i ==> !SpsAt(data, k)
    {
      var sc4 := i + 4 < csd.Length && csd[i] == 0 && csd[i + 1] == 0 && csd[i + 2] == 0 && csd[i + 3] == 1;
      var sc3 := csd[i] == 0 && csd[i + 1] == 0 && csd[i + 2] == 1;
      var hdrLen := if sc4 then 4 else if sc3 then 3 else 0;
      if hdrLen == 0 {
        assert !StartCode(data, i);
        i := i + 1;
        continue;
      }
      JumpSkipsNothing(data, i, hdrLen - 1);
      var nalType := csd[i + hdrLen] % 32;
      if nalType == SPS && i + hdrLen + 3 < csd.Length {
        assert FirstSps(data, i + hdrLen - 3);
        return Codec(csd[i + hdrLen + 1], csd[i + hdrLen + 2], csd[i + hdrLen + 3]);
      }
      i := i + hdrLen;
    }
    return DEFAULT_CODEC;
  }

  lemma CodecIsSpelled(p: byte, c: byte, l: byte)
    ensures var digits := "0123456789ABCDEF";
      Codec(p, c, l) ==
        "avc1." + [digits[p / 16], digits[p % 16], digits[c / 16], digits[c % 16], digits[l / 16], digits[l % 16]]
  {
  }

  lemma FirstIsTheOne(csd: Bytes, j: nat, codec: string)
    requires IsCodecOf(codec, csd) && FirstSps(csd, j)
    ensures codec == CodecAt(csd, j)
  {
    hide SpsAt, CodecAt;
    var i: nat :| FirstSps(csd, i) && codec == CodecAt(csd, i);
    assert !(i < j) && !(j < i);
  }

  /** No complete parameter set starts before j. */
  predicate NoneBefore(csd: Bytes, j: nat)
    requires j + 6 < |csd|
  {
    forall k :: 0 <= k < j ==> !(csd[k] == 0 && csd[k + 1] == 0 && csd[k + 2] == 1 && csd[k + 3] % 32 == 7)
  }

  /** The first complete parameter set, written out: its three bytes in capital hex digits, in their order. */
  lemma FirstSpsIsSpelled(csd: Bytes, j: nat, codec: string, p: byte, c: byte, l: byte)
    requires IsCodecOf(codec, csd) && j + 6 < |csd| && NoneBefore(csd, j)
    requires csd[j] == 0 && csd[j + 1] == 0 && csd[j + 2] == 1 && csd[j + 3] % 32 == 7
    requires csd[j + 4] == p && csd[j + 5] == c && csd[j + 6] == l
    ensures var digits := "0123456789ABCDEF";
      codec == "avc1." + [digits[p / 16], digits[p % 16], digits[c / 16], digits[c % 16], digits[l / 16], digits[l % 16]]
  {
    FirstIsHere(csd, j, p, c, l);
    hide *;
    FirstIsTheOne(csd, j, codec);
    CodecIsSpelled(p, c, l);
  }

  lemma FirstIsHere(csd: Bytes, j: nat, p: byte, c: byte, l: byte)
    requires j + 6 < |csd| && NoneBefore(csd, j)
    requires csd[j] == 0 && csd[j + 1] == 0 && csd[j + 2] == 1 && csd[j + 3] % 32 == 7
    requires csd[j + 4] == p && csd[j + 5] == c && csd[j + 6] == l
    ensures FirstSps(csd, j) && CodecAt(csd, j) == Codec(p, c, l)
  {
    hide Codec;
  }

  /** Where no complete parameter set is, the default is returned. */
  lemma NoSpsIsDefault(csd: Bytes, codec: string)
    requires IsCodecOf(codec, csd)
    requires forall k :: 0 <= k < |csd| - 6 ==> !(csd[k] == 0 && csd[k + 1] == 0 && csd[k + 2] == 1 && csd[k + 3] % 32 == 7)
    ensures codec == "avc1.42E01E"
  {
  }
}
