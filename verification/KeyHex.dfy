/** The text form of a key: a type prefix followed by hexadecimal digits. */
module KeyHex {
  import opened Prelude
  import opened ByteOrder

  /** "private_client_key:" */
  const CLIENT_PRIVATE_KEY_PREFIX: Text :=
    [112, 114, 105, 118, 97, 116, 101, 95, 99, 108, 105, 101, 110, 116, 95, 107, 101, 121, 58]

  function FromHexChar(c: byte): (v: Option<byte>)
    ensures v.Some? ==> v.value < 16
  {
    if 48 <= c <= 57 then Some(c - 48)
    else if 97 <= c <= 102 then Some(c - 97 + 10)
    else if 65 <= c <= 70 then Some(c - 65 + 10)
    else None
  }

  predicate IsHexDigit(c: byte) {
    48 <= c <= 57 || 97 <= c <= 102 || 65 <= c <= 70
  }

  function ToLower(c: byte): byte {
    if 65 <= c <= 90 then c + 32 else c
  }

  /** hex.Encode writes lower-case digits. */
  function HexDigit(v: byte): (c: byte)
    requires v < 16
    ensures FromHexChar(c) == Some(v)
  {
    if v < 10 then 48 + v else 97 + (v - 10)
  }

  function HexEncode(k: Text): (t: Text)
    ensures |t| == 2 * |k|
  {
    if k == [] then [] else HexEncode(k[..|k| - 1]) + [HexDigit(k[|k| - 1] / 16), HexDigit(k[|k| - 1] % 16)]
  }

  function ToHex(k: Text, prefix: Text): Text {
    prefix + HexEncode(k)
  }

  /** Decoded: the bytes before the first pair that is not hexadecimal, and whether there is no such pair. */
  function DecodePairs(t: Text, n: nat): (r: (Text, bool))
    requires |t| == 2 * n
    ensures |r.0| <= n && (r.1 <==> |r.0| == n)
  {
    if n == 0 then
      ([], true)
    else
      var (front, ok) := DecodePairs(t[..2 * n - 2], n - 1);
      var a, b := FromHexChar(t[2 * n - 2]), FromHexChar(t[2 * n - 1]);
      if !ok || a.None? || b.None? then (front, false) else (front + [a.value * 16 + b.value], true)
  }

  /** `partial` is what has been written before the bad character was met. */
  datatype ParseResult = Parsed(key: Text) | WrongPrefix | WrongSize | BadCharacter(partial: Text)

  function ParseHex(size: nat, text: Text, prefix: Text): (r: ParseResult)
    ensures r.Parsed? ==> |r.key| == size
  {
    if !(prefix <= text) then
      WrongPrefix
    else
      var digits := text[|prefix|..];
      if |digits| != size * 2 then
        WrongSize
      else
        var (decoded, ok) := DecodePairs(digits, size);
        if ok then Parsed(decoded) else BadCharacter(decoded)
  }

  // ---- the codec laws -----------------------------------------------------------------------

  /** Decoding one more pair. */
  lemma DecodeStep(front: Text, n: nat, x: byte, y: byte)
    requires |front| == 2 * n
    ensures var a, b := FromHexChar(x), FromHexChar(y);
            DecodePairs(front + [x, y], n + 1)
            == if !DecodePairs(front, n).1 || a.None? || b.None? then (DecodePairs(front, n).0, false)
               else (DecodePairs(front, n).0 + [a.value * 16 + b.value], true)
  {
    assert (front + [x, y])[..2 * n] == front;
  }

  lemma ByteOfDigits(v: byte)
    ensures FromHexChar(HexDigit(v / 16)) == Some(v / 16) && FromHexChar(HexDigit(v % 16)) == Some(v % 16)
    ensures v / 16 * 16 + v % 16 == v
  {
  }

  lemma {:induction false} DecodeEncoded(k: Text)
    ensures DecodePairs(HexEncode(k), |k|) == (k, true)
  {
    if k != [] {
      hide DecodePairs, HexDigit, FromHexChar;
      var front, last := k[..|k| - 1], k[|k| - 1];
      DecodeEncoded(front);
      DecodeStep(HexEncode(front), |front|, HexDigit(last / 16), HexDigit(last % 16));
      ByteOfDigits(last);
      assert k == front + [last];
    }
  }

  /** Whatever is encoded is parsed back, for every key and prefix. */
  lemma RoundTrip(k: Text, prefix: Text)
    ensures ParseHex(|k|, ToHex(k, prefix), prefix) == Parsed(k)
  {
    DecodeEncoded(k);
    assert ToHex(k, prefix)[|prefix|..] == HexEncode(k);
  }

  function Lowered(t: Text): (r: Text)
    ensures |r| == |t|
    ensures forall i | 0 <= i < |t| :: r[i] == ToLower(t[i])
  {
    seq(|t|, i requires 0 <= i < |t| => ToLower(t[i]))
  }

  /** A pair of digits survives decoding and encoding, in lower case. */
  lemma PairDigits(x: byte, y: byte)
    requires IsHexDigit(x) && IsHexDigit(y)
    ensures var v := FromHexChar(x).value * 16 + FromHexChar(y).value;
            HexDigit(v / 16) == ToLower(x) && HexDigit(v % 16) == ToLower(y)
  {
    var a, b := FromHexChar(x).value, FromHexChar(y).value;
    assert (a * 16 + b) / 16 == a && (a * 16 + b) % 16 == b;
  }

  lemma {:induction false} DecodesDigits(t: Text, n: nat)
    requires |t| == 2 * n
    ensures DecodePairs(t, n).1 <==> forall i | 0 <= i < |t| :: IsHexDigit(t[i])
  {
    if n > 0 {
      var front := t[..2 * n - 2];
      DecodesDigits(front, n - 1);
      assert forall i | 0 <= i < |front| :: front[i] == t[i];
    }
  }

  lemma EncodeNothing()
    ensures HexEncode([]) == []
  {
  }

  /** Encoding one more decoded pair. */
  lemma ReencodeStep(k: Text, x: byte, y: byte)
    requires IsHexDigit(x) && IsHexDigit(y)
    ensures FromHexChar(x).Some? && FromHexChar(y).Some?
    ensures HexEncode(k + [FromHexChar(x).value * 16 + FromHexChar(y).value]) == HexEncode(k) + [ToLower(x), ToLower(y)]
  {
    var v := FromHexChar(x).value * 16 + FromHexChar(y).value;
    PairDigits(x, y);
    assert (k + [v])[..|k|] == k;
    hide HexDigit, FromHexChar, ToLower;
  }

  lemma LoweredGrows(front: Text, x: byte, y: byte)
    ensures Lowered(front + [x, y]) == Lowered(front) + [ToLower(x), ToLower(y)]
  {
  }

  lemma {:induction false} ReencodesLowered(t: Text, n: nat)
    requires |t| == 2 * n && DecodePairs(t, n).1
    ensures HexEncode(DecodePairs(t, n).0) == Lowered(t)
  {
    hide HexDigit, ToLower, HexEncode;
    if n == 0 {
      EncodeNothing();
    } else {
      var front, x, y := t[..2 * n - 2], t[2 * n - 2], t[2 * n - 1];
      assert t == front + [x, y];
      DecodeStep(front, n - 1, x, y);
      ReencodesLowered(front, n - 1);
      ReencodeStep(DecodePairs(front, n - 1).0, x, y);
      LoweredGrows(front, x, y);
    }
  }

  /** Parsing succeeds on exactly the prefix followed by twice-the-size hexadecimal digits, and encoding
      what it returns gives the text back with its digits in lower case. */
  lemma ParsesExactlyHex(size: nat, text: Text, prefix: Text)
    ensures ParseHex(size, text, prefix).Parsed? <==>
              && prefix <= text
              && |text| == |prefix| + 2 * size
              && forall i | |prefix| <= i < |text| :: IsHexDigit(text[i])
    ensures ParseHex(size, text, prefix).Parsed? ==>
              && |ParseHex(size, text, prefix).key| == size
              && ToHex(ParseHex(size, text, prefix).key, prefix) == prefix + Lowered(text[|prefix|..])
  {
    if prefix <= text && |text| == |prefix| + 2 * size {
      var digits := text[|prefix|..];
      DecodesDigits(digits, size);
      if DecodePairs(digits, size).1 {
        ReencodesLowered(digits, size);
      }
      assert forall i | |prefix| <= i < |text| :: text[i] == digits[i - |prefix|];
    }
  }

  // ---- the digits --------------------------------------------------------------------------------------

  /** "0123456789abcdef" */
  const DIGITS: Text := [48, 49, 50, 51, 52, 53, 54, 55, 56, 57, 97, 98, 99, 100, 101, 102]

  /** A character is read as the place of its lower-case form among the sixteen digits, if it has one. */
  lemma DigitValue(c: byte)
    ensures FromHexChar(c).Some? <==> ToLower(c) in DIGITS
    ensures FromHexChar(c).Some? ==> DIGITS[FromHexChar(c).value] == ToLower(c)
  {
    assert ToLower(c) in DIGITS ==> exists v :: 0 <= v < 16 && DIGITS[v] == ToLower(c);
  }

  /** The two digits of byte j. */
  lemma {:induction false} HexAt(k: Text, j: nat)
    requires j < |k|
    ensures HexEncode(k)[2 * j] == HexDigit(k[j] / 16) && HexEncode(k)[2 * j + 1] == HexDigit(k[j] % 16)
  {
    if j < |k| - 1 {
      HexAt(k[..|k| - 1], j);
    }
  }

  /** The text of a key: after the prefix, for each byte its high and then its low digit. */
  lemma TextOfKey(k: Text, prefix: Text, j: nat)
    requires j < |k|
    ensures |ToHex(k, prefix)| == |prefix| + 2 * |k| && prefix <= ToHex(k, prefix)
    ensures ToHex(k, prefix)[|prefix| + 2 * j] == DIGITS[k[j] / 16]
    ensures ToHex(k, prefix)[|prefix| + 2 * j + 1] == DIGITS[k[j] % 16]
  {
    HexAt(k, j);
    hide HexEncode;
  }

  lemma DecodeNothing()
    ensures DecodePairs([], 0) == ([], true)
  {
  }

  lemma DigitIff(c: byte)
    ensures FromHexChar(c).Some? <==> IsHexDigit(c)
  {
  }

  /** Decoding goes up to the first two characters that are not a pair of digits. */
  lemma {:induction false} DecodesUpToBadPair(t: Text, n: nat)
    requires |t| == 2 * n
    ensures var decoded := DecodePairs(t, n).0;
            && |decoded| <= n
            && HexEncode(decoded) == Lowered(t[..2 * |decoded|])
            && (|decoded| < n ==> !(IsHexDigit(t[2 * |decoded|]) && IsHexDigit(t[2 * |decoded| + 1])))
  {
    hide DecodePairs, HexEncode, HexDigit, ToLower, FromHexChar, IsHexDigit;
    var decoded := DecodePairs(t, n).0;
    if DecodePairs(t, n).1 {
      ReencodesLowered(t, n);
      assert t[..2 * n] == t;
    } else {
      assert n > 0 by {
        DecodeNothing();
      }
      var front, x, y := t[..2 * n - 2], t[2 * n - 2], t[2 * n - 1];
      assert t == front + [x, y];
      DecodeStep(front, n - 1, x, y);
      DigitIff(x);
      DigitIff(y);
      DecodesUpToBadPair(front, n - 1);
      assert decoded == DecodePairs(front, n - 1).0;
      assert t[..2 * |decoded|] == front[..2 * |decoded|];
    }
  }

  /** Why a text does not parse: its prefix, else its size, else its first bad pair; the bytes decoded so far are
      those of the digits before that pair. */
  lemma ParseFailures(size: nat, text: Text, prefix: Text)
    ensures ParseHex(size, text, prefix).WrongPrefix? <==> !(prefix <= text)
    ensures ParseHex(size, text, prefix).WrongSize? <==> prefix <= text && |text| != |prefix| + 2 * size
    ensures ParseHex(size, text, prefix).BadCharacter? ==>
              var digits, partial := text[|prefix|..], ParseHex(size, text, prefix).partial;
              && |partial| < size && |digits| == 2 * size
              && HexEncode(partial) == Lowered(digits[..2 * |partial|])
              && !(IsHexDigit(digits[2 * |partial|]) && IsHexDigit(digits[2 * |partial| + 1]))
  {
    if prefix <= text && |text| == |prefix| + 2 * size {
      DecodesUpToBadPair(text[|prefix|..], size);
    }
  }

  // ---- the code that fills buffers ---------------------------------------------------------------

  method ToHexBuffer(k: Text, prefix: Text) returns (ret: array<byte>)
    ensures fresh(ret) && ret[..] == ToHex(k, prefix)
  {
    hide HexDigit, HexEncode;
    ret := new byte[|prefix| + |k| * 2](_ => 0);
    for i := 0 to |prefix|
      invariant forall j | 0 <= j < i :: ret[j] == prefix[j]
    {
      ret[i] := prefix[i];
    }
    for j := 0 to |k|
      invariant forall i | 0 <= i < |prefix| :: ret[i] == prefix[i]
      invariant forall i | 0 <= i < 2 * j :: ret[|prefix| + i] == HexEncode(k)[i]
    {
      ret[|prefix| + 2 * j] := HexDigit(k[j] / 16);
      ret[|prefix| + 2 * j + 1] := HexDigit(k[j] % 16);
      HexAt(k, j);
    }
    assert ret[..] == prefix + HexEncode(k);
  }

  /** Once a pair is bad, decoding more of the text changes nothing. */
  lemma {:induction false} StaysBad(t: Text, m: nat, n: nat, partial: Text)
    requires m <= n && |t| == 2 * n
    requires DecodePairs(t[..2 * m], m) == (partial, false)
    ensures DecodePairs(t, n) == (partial, false)
  {
    if m == n {
      assert t[..2 * m] == t;
    } else {
      assert t[..2 * n - 2][..2 * m] == t[..2 * m];
      StaysBad(t[..2 * n - 2], m, n - 1, partial);
    }
  }

  method DecodeInto(out: array<byte>, digits: Text) returns (ok: bool)
    requires |digits| == 2 * out.Length
    modifies out
    ensures ok == DecodePairs(digits, out.Length).1
    ensures out[..] == DecodePairs(digits, out.Length).0 + old(out[..])[|DecodePairs(digits, out.Length).0|..]
  {
    hide DecodePairs, FromHexChar;
    DecodeNothing();
    for i := 0 to out.Length
      invariant DecodePairs(digits[..2 * i], i) == (out[..i], true)
      invariant forall j | i <= j < out.Length :: out[j] == old(out[j])
    {
      var a := FromHexChar(digits[i * 2 + 0]);
      var b := FromHexChar(digits[i * 2 + 1]);
      assert digits[..2 * (i + 1)] == digits[..2 * i] + [digits[i * 2], digits[i * 2 + 1]];
      DecodeStep(digits[..2 * i], i, digits[i * 2], digits[i * 2 + 1]);
      if a.None? || b.None? {
        StaysBad(digits, i + 1, out.Length, out[..i]);
        assert out[..] == out[..i] + old(out[..])[i..];
        return false;
      }
      out[i] := a.value * 16 + b.value;
      assert out[..i + 1] == out[..i] + [out[i]];
    }
    assert digits[..2 * out.Length] == digits && out[..out.Length] == out[..];
    ok := true;
  }

  /** parseHex writes as it reads: on a bad character the bytes before it have been overwritten. */
  method ParseHexInto(out: array<byte>, text: Text, prefix: Text) returns (ok: bool)
    modifies out
    ensures ok <==> ParseHex(out.Length, text, prefix).Parsed?
    ensures match ParseHex(out.Length, text, prefix)
            case Parsed(key) => out[..] == key
            case BadCharacter(partial) => out[..] == partial + old(out[..])[|partial|..]
            case _ => out[..] == old(out[..])
  {
    if !(prefix <= text) {
      return false;
    }
    var digits := text[|prefix|..];
    if |digits| != out.Length * 2 {
      return false;
    }
    ok := DecodeInto(out, digits);
  }
}
