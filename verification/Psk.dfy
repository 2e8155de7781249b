/** The pre-shared key of the joiner session's DTLS server. */
module Psk {
  const MAX_PSK := 32

  /** Lengths are passed on in eight bits. */
  function CutLength(text: string): (n: nat)
    ensures n <= |text| && n < 256
  {
    |text| % 256
  }

  /** The key after a text is set: as many characters as the cut length says, unless they are too many. */
  function Replaced(psk: string, text: string): (r: string)
    ensures |text| <= MAX_PSK ==> r == text
    ensures |psk| <= MAX_PSK ==> |r| <= MAX_PSK
  {
    if CutLength(text) <= MAX_PSK then text[..CutLength(text)] else psk
  }

  /** Exactly when a text becomes the key as it is. */
  lemma TakenIff(psk: string, text: string)
    ensures Replaced(psk, text) == text <==> |text| <= 32 || (|text| % 256 > 32 && psk == text)
  {
    if CutLength(text) <= MAX_PSK < |text| {
      assert |Replaced(psk, text)| <= MAX_PSK;
    }
  }

  /** What becomes of a longer text. */
  lemma LongText(psk: string, text: string)
    requires |text| > 32
    ensures Replaced(psk, text) == if |text| % 256 <= 32 then text[..|text| % 256] else psk
  {
  }
}
