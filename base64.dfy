/** The standard Base64 encoder (section 4 of RFC 4648, with '=' padding) that
    convertUploadedFileToBase64 applies to the uploaded bytes. */
module Base64 {

  type Byte = x: int | 0 <= x < 256

  const Alphabet: string := "ABCDEFGHIJKLMNOPQRSTUVWXYZabcdefghijklmnopqrstuvwxyz0123456789+/"

  predicate IsEncodingChar(c: char) {
    c in Alphabet || c == '='
  }

  /** The character that encodes the 6-bit value x. */
  function Digit(x: int): (c: char)
    requires 0 <= x < 64
    ensures IsEncodingChar(c)
  {
    assert |Alphabet| == 64;
    Alphabet[x]
  }

  /** Number of characters the encoder emits for n bytes. */
  function EncodedLength(n: nat): nat {
    4 * ((n + 2) / 3)
  }

  /** Base64.getEncoder().encodeToString(bs): each group of three bytes becomes
      four characters; a final group of one or two bytes is padded with '='. */
  function Encode(bs: seq<Byte>): (r: string)
    ensures |r| == EncodedLength(|bs|)
    ensures r == [] <==> bs == []
    ensures forall i :: 0 <= i < |r| ==> IsEncodingChar(r[i])
    decreases |bs|
  {
    if |bs| == 0 then ""
    else if |bs| == 1 then
      [Digit(bs[0] / 4), Digit((bs[0] % 4) * 16), '=', '=']
    else if |bs| == 2 then
      [Digit(bs[0] / 4), Digit((bs[0] % 4) * 16 + bs[1] / 16), Digit((bs[1] % 16) * 4), '=']
    else
      var rest := Encode(bs[3..]);
      assert EncodedLength(|bs|) == 4 + EncodedLength(|bs| - 3);
      [Digit(bs[0] / 4), Digit((bs[0] % 4) * 16 + bs[1] / 16),
       Digit((bs[1] % 16) * 4 + bs[2] / 64), Digit(bs[2] % 64)]
      + rest
  }
}
