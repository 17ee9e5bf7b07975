/** The base 64 encoding of section 4 of RFC 4648 (standard alphabet, with `=`
    padding), written as a reference definition. The browser's canvas produces
    payloads in this form; the size measure of the data URL module is checked
    against it. */
module Base64 {

  type Byte = x: int | 0 <= x < 256

  const Pad: char := '='

  /** The character that table 1 of RFC 4648 assigns to a 6-bit value. No
      character of the alphabet is the pad or the comma that separates a data
      URL's header from its payload. */
  function Sextet(v: nat): (c: char)
    requires v < 64
    ensures c != Pad && c != ','
  {
    if v < 26 then (65 + v) as char            // 'A' .. 'Z'
    else if v < 52 then (97 + v - 26) as char  // 'a' .. 'z'
    else if v < 62 then (48 + v - 52) as char  // '0' .. '9'
    else if v == 62 then '+'
    else '/'
  }

  /** One quantum of 1 to 3 bytes as 4 characters: a 24-bit group split into four
      6-bit values, the positions that no input bit reaches replaced by pads. */
  function EncodeQuantum(b: seq<Byte>): (s: string)
    requires 1 <= |b| <= 3
    ensures |s| == 4
    ensures s[0] != Pad && s[1] != Pad
    ensures s[2] == Pad <==> |b| == 1
    ensures s[3] == Pad <==> |b| < 3
    ensures ',' !in s
  {
    var b1: int := if |b| > 1 then b[1] else 0;
    var b2: int := if |b| > 2 then b[2] else 0;
    [Sextet(b[0] / 4), Sextet(b[0] % 4 * 16 + b1 / 16)]
      + [if |b| > 1 then Sextet(b1 % 16 * 4 + b2 / 64) else Pad]
      + [if |b| > 2 then Sextet(b2 % 64) else Pad]
  }

  /** The encoding of a byte string: one quantum per 3 bytes, the last one
      possibly short and padded. Every 3 bytes, started or not, take 4 characters. */
  function Encode(b: seq<Byte>): (s: string)
    ensures |s| == 4 * ((|b| + 2) / 3)
    decreases |b|
  {
    if |b| == 0 then []
    else if |b| <= 3 then EncodeQuantum(b)
    else EncodeQuantum(b[..3]) + Encode(b[3..])
  }

  /** An encoding never contains a comma, so it can stand as the payload of a data
      URL and is not cut short by splitting on commas. */
  lemma {:induction false} EncodeHasNoComma(b: seq<Byte>)
    ensures ',' !in Encode(b)
    decreases |b|
  {
    if |b| > 3 {
      EncodeHasNoComma(b[3..]);
    }
  }

  /** What the last characters of an encoding of n bytes are: two pads when one
      byte is left over after the full quanta, one pad when two are, and no pad
      when none is. */
  predicate EndsInPadsFor(s: string, n: nat)
  {
    && (n % 3 == 1 ==> |s| >= 4 && s[|s| - 1] == Pad && s[|s| - 2] == Pad)
    && (n % 3 == 2 ==> |s| >= 4 && s[|s| - 1] == Pad && s[|s| - 2] != Pad)
    && (n % 3 == 0 && |s| > 0 ==> s[|s| - 1] != Pad)
  }

  /** A quantum on its own ends in the pads its byte count calls for. */
  lemma QuantumTrailingPads(b: seq<Byte>)
    requires 1 <= |b| <= 3
    ensures EndsInPadsFor(EncodeQuantum(b), |b|)
  {
  }

  /** Putting a full quantum in front keeps the trailing pads of what follows. */
  lemma PadsAfterFullQuantum(head: string, tail: string, n: nat)
    requires |head| == 4 && |tail| >= 4 && n >= 3
    requires EndsInPadsFor(tail, n - 3)
    ensures EndsInPadsFor(head + tail, n)
  {
    var s := head + tail;
    assert (n - 3) % 3 == n % 3;
    assert s[|s| - 1] == tail[|tail| - 1];
    assert s[|s| - 2] == tail[|tail| - 2];
  }

  /** An encoding ends in exactly the pads its last quantum needs. */
  lemma {:induction false} EncodeTrailingPads(b: seq<Byte>)
    ensures EndsInPadsFor(Encode(b), |b|)
    decreases |b|
  {
    if 1 <= |b| <= 3 {
      QuantumTrailingPads(b);
    } else if |b| > 3 {
      EncodeTrailingPads(b[3..]);
      PadsAfterFullQuantum(EncodeQuantum(b[..3]), Encode(b[3..]), |b|);
    }
  }
}
