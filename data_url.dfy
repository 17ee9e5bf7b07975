/** Measuring a data URL: the number of bytes its base64 payload decodes to,
    worked out from the payload's length and trailing pads alone. */
module DataUrl {
  import opened Base64

  /** `s.split(sep)` for a one-character separator: the fields between
      separators, left to right; a string without the separator is one field. */
  function Split(s: string, sep: char): (fields: seq<string>)
    ensures |fields| >= 1
    ensures forall i :: 0 <= i < |fields| ==> sep !in fields[i]
    decreases |s|
  {
    if |s| == 0 then [""]
    else
      var rest := Split(s[1..], sep);
      if s[0] == sep then [""] + rest
      else [[s[0]] + rest[0]] + rest[1..]
  }

  /** The fields put back together with the separator between them. */
  function Join(fields: seq<string>, sep: char): string
    requires |fields| >= 1
    decreases |fields|
  {
    if |fields| == 1 then fields[0] else fields[0] + [sep] + Join(fields[1..], sep)
  }

  /** Splitting loses nothing: joining the fields gives the string back. */
  lemma {:induction false} JoinSplit(s: string, sep: char)
    ensures Join(Split(s, sep), sep) == s
    decreases |s|
  {
    if |s| > 0 {
      var rest := Split(s[1..], sep);
      JoinSplit(s[1..], sep);
      if s[0] == sep {
        assert Split(s, sep)[1..] == rest;
      } else if |rest| > 1 {
        var fields := Split(s, sep);
        assert fields[1..] == rest[1..];
        assert Join(rest, sep) == rest[0] + [sep] + Join(rest[1..], sep);
        assert Join(fields, sep) == [s[0]] + rest[0] + [sep] + Join(rest[1..], sep);
      }
      assert s == [s[0]] + s[1..];
    }
  }

  /** A string without the separator splits into itself alone. */
  lemma {:induction false} SplitWithoutSeparator(s: string, sep: char)
    requires sep !in s
    ensures Split(s, sep) == [s]
    decreases |s|
  {
    if |s| > 0 {
      SplitWithoutSeparator(s[1..], sep);
      assert s == [s[0]] + s[1..];
    }
  }

  /** The first field ends at the first separator; the rest is split on its own. */
  lemma {:induction false} SplitAtFirstSeparator(head: string, sep: char, tail: string)
    requires sep !in head
    ensures Split(head + [sep] + tail, sep) == [head] + Split(tail, sep)
    decreases |head|
  {
    var s := head + [sep] + tail;
    if |head| == 0 {
      assert s[1..] == tail;
    } else {
      assert s[1..] == head[1..] + [sep] + tail;
      SplitAtFirstSeparator(head[1..], sep, tail);
      assert [head[0]] + head[1..] == head;
    }
  }

  /** `dataUrl.split(',')[1] || ''`: the second comma-separated field, or the
      empty string when the URL has no comma. */
  function Payload(url: string): (p: string)
    ensures ',' !in p
  {
    var fields := Split(url, ',');
    if |fields| > 1 then fields[1] else ""
  }

  predicate EndsWith(s: string, suffix: string)
  {
    |suffix| <= |s| && s[|s| - |suffix|..] == suffix
  }

  /** The number of trailing pads: 2 for `==`, 1 for a single `=`, else 0. */
  function PaddingCount(p: string): (n: nat)
    ensures n <= 2 && n <= |p|
    ensures n > 0 ==> p[|p| - 1] == Pad
  {
    if EndsWith(p, "==") then 2 else if EndsWith(p, "=") then 1 else 0
  }

  /** `Math.floor(len * 3 / 4) - padding` for a payload of length len. */
  function PayloadSize(p: string): int
  {
    |p| * 3 / 4 - PaddingCount(p)
  }

  /** `dataUrlSizeBytes`: the decoded size of the URL's payload. It is never below
      -1, whatever the string. */
  function DataUrlSizeBytes(url: string): (r: int)
    ensures r >= -1
  {
    PayloadSize(Payload(url))
  }

  /** The payload of `header,body` is body when neither holds a comma. */
  lemma PayloadIsSecondField(header: string, body: string)
    requires ',' !in header && ',' !in body
    ensures Payload(header + "," + body) == body
  {
    SplitAtFirstSeparator(header, ',', body);
    SplitWithoutSeparator(body, ',');
  }

  /** The payload stops at a second comma: whatever follows it is not measured. */
  lemma PayloadStopsAtSecondComma(header: string, body: string, rest: string)
    requires ',' !in header && ',' !in body
    ensures Payload(header + "," + body + "," + rest) == body
  {
    assert header + "," + body + "," + rest == header + [','] + (body + [','] + rest);
    SplitAtFirstSeparator(header, ',', body + [','] + rest);
    SplitAtFirstSeparator(body, ',', rest);
  }

  /** A URL without a comma has an empty payload and measures 0 bytes. */
  lemma NoCommaMeasuresZero(url: string)
    requires ',' !in url
    ensures Payload(url) == "" && DataUrlSizeBytes(url) == 0
  {
    SplitWithoutSeparator(url, ',');
  }

  /** The measure goes below zero only for a payload that is nothing but one or
      two pads, which no encoding of a byte string is. */
  lemma NegativeOnlyForBarePads(url: string)
    ensures DataUrlSizeBytes(url) < 0 <==> Payload(url) == "=" || Payload(url) == "=="
  {
    var p := Payload(url);
    if |p| == 1 && p[0] == Pad {
      assert p == "=";
    } else if |p| == 2 && p[0] == Pad && p[1] == Pad {
      assert p == "==";
    } else if |p| == 2 && p[1] == Pad {
      assert !EndsWith(p, "==");
    }
  }

  /** On a payload of two or more characters, the pad count reads the last two. */
  lemma PaddingOfLastTwo(p: string)
    requires |p| >= 2
    ensures PaddingCount(p) == if p[|p| - 1] != Pad then 0 else if p[|p| - 2] == Pad then 2 else 1
  {
    var last2 := p[|p| - 2..];
    assert last2[0] == p[|p| - 2] && last2[1] == p[|p| - 1];
    if p[|p| - 1] == Pad && p[|p| - 2] == Pad {
      assert last2 == "==";
    } else if p[|p| - 1] == Pad {
      assert p[|p| - 1..] == "=";
    }
  }

  /** A payload that ends in the pads of an encoding of n bytes has the pad count
      of one: as many pads as the last quantum is short of 3 bytes. */
  lemma PaddingOfPads(p: string, n: nat)
    requires EndsInPadsFor(p, n)
    ensures PaddingCount(p) == (3 - n % 3) % 3
  {
    if |p| >= 2 {
      PaddingOfLastTwo(p);
    }
  }

  /** A payload with the length and the pads of an encoding of n bytes measures n. */
  lemma PayloadSizeOfShape(p: string, n: nat)
    requires |p| == 4 * ((n + 2) / 3)
    requires EndsInPadsFor(p, n)
    ensures PayloadSize(p) == n
  {
    PaddingOfPads(p, n);
    var q := n / 3;
    assert n == 3 * q + n % 3;
    assert (n + 2) / 3 == if n % 3 == 0 then q else q + 1;
  }

  /** The measure is exact on base 64: an encoding of n bytes measures n, with
      0, 1 or 2 trailing pads. */
  lemma PayloadSizeOfEncoding(b: seq<Byte>, p: string)
    requires p == Encode(b)
    ensures PayloadSize(p) == |b|
  {
    EncodeTrailingPads(b);
    PayloadSizeOfShape(p, |b|);
  }

  /** A data URL whose payload is the base 64 encoding of n bytes measures n. */
  lemma DataUrlSizeOfEncoding(header: string, b: seq<Byte>)
    requires ',' !in header
    ensures DataUrlSizeBytes(header + "," + Encode(b)) == |b|
  {
    EncodeHasNoComma(b);
    PayloadIsSecondField(header, Encode(b));
    PayloadSizeOfEncoding(b, Encode(b));
  }
}
