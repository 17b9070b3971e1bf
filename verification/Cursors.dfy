// Opaque cursors: URL-safe base64 (RFC 4648, section 5) with its padding stripped and restored.
module Cursors {
  import opened Wrappers
  import opened Texts

  // ----- The alphabet -----

  function Digit(v: int): char
    requires 0 <= v < 64
  {
    if v < 26 then (65 + v) as char
    else if v < 52 then (97 + v - 26) as char
    else if v < 62 then (48 + v - 52) as char
    else if v == 62 then '-'
    else '_'
  }

  function Value(c: char): (r: Option<int>)
    ensures r.Some? ==> 0 <= r.value < 64
  {
    var n := c as int;
    if 65 <= n <= 90 then Some(n - 65)
    else if 97 <= n <= 122 then Some(n - 97 + 26)
    else if 48 <= n <= 57 then Some(n - 48 + 52)
    else if c == '-' then Some(62)
    else if c == '_' then Some(63)
    else None
  }

  /** The URL and filename safe alphabet of section 5 of RFC 4648: A to Z, a to z, 0 to 9, minus and underscore. */
  lemma DigitsAreTheAlphabet(v: int)
    requires 0 <= v < 64
    ensures Digit(0) == 'A' && Digit(25) == 'Z' && Digit(26) == 'a' && Digit(51) == 'z' && Digit(52) == '0' && Digit(61) == '9'
    ensures Digit(62) == '-' && Digit(63) == '_'
    ensures v < 61 && v != 25 && v != 51 ==> Digit(v + 1) as int == Digit(v) as int + 1
  {
  }

  lemma DigitsReadBack(v: int)
    requires 0 <= v < 64
    ensures Value(Digit(v)) == Some(v) && Digit(v) != '='
  {
  }

  // ----- Groups of three bytes and four digits -----

  function EncodeGroup(a: int, b: int, c: int): string
    requires 0 <= a < 256 && 0 <= b < 256 && 0 <= c < 256
  {
    [Digit(a / 4), Digit(a % 4 * 16 + b / 16), Digit(b % 16 * 4 + c / 64), Digit(c % 64)]
  }

  /** The digits of a byte string, without padding. */
  function Digits(raw: Bytes): string {
    if |raw| == 0 then ""
    else if |raw| == 1 then EncodeGroup(raw[0] as int, 0, 0)[..2]
    else if |raw| == 2 then EncodeGroup(raw[0] as int, raw[1] as int, 0)[..3]
    else EncodeGroup(raw[0] as int, raw[1] as int, raw[2] as int) + Digits(raw[3..])
  }

  function Pads(n: nat): string {
    if n == 0 then "" else "=" + Pads(n - 1)
  }

  /** `urlsafe_b64encode`. */
  function Encode(raw: Bytes): string {
    Digits(raw) + Pads(PadCount(|raw|))
  }

  /** `rstrip("=")`. */
  function StripPads(s: string): string {
    if |s| != 0 && s[|s| - 1] == '=' then StripPads(s[..|s| - 1]) else s
  }

  function Bytes3(a: int, b: int, c: int, d: int): Bytes
    requires 0 <= a < 64 && 0 <= b < 64 && 0 <= c < 64 && 0 <= d < 64
  {
    [(a * 4 + b / 16) as Byte, (b % 16 * 16 + c / 4) as Byte, (c % 4 * 64 + d) as Byte]
  }

  /** `urlsafe_b64decode` on complete groups; None where it raises. */
  function Decode(s: string): Option<Bytes> {
    if |s| == 0 then Some([])
    else if |s| < 4 || Value(s[0]).None? || Value(s[1]).None? then None
    else
      var a, b := Value(s[0]).value, Value(s[1]).value;
      if |s| == 4 && s[2] == '=' && s[3] == '=' then Some(Bytes3(a, b, 0, 0)[..1])
      else if Value(s[2]).None? then None
      else
        var c := Value(s[2]).value;
        if |s| == 4 && s[3] == '=' then Some(Bytes3(a, b, c, 0)[..2])
        else if Value(s[3]).None? then None
        else
          match Decode(s[4..])
          case None => None
          case Some(rest) => Some(Bytes3(a, b, c, Value(s[3]).value) + rest)
  }

  /** `encode_cursor`, from the JSON text of the payload on. */
  function EncodeCursor(payload: Bytes): string {
    StripPads(Encode(payload))
  }

  /** The padding `decode_cursor` puts back: minus the length, modulo four. */
  function Restored(cursor: string): string {
    cursor + Pads((0 - |cursor|) % 4)
  }

  /** `decode_cursor`, up to the JSON text: an empty cursor is refused outright. */
  function DecodeCursor(cursor: string): Option<Bytes> {
    if |cursor| == 0 then None else Decode(Restored(cursor))
  }

  lemma GroupReadsBack(x: int, y: int, z: int)
    requires 0 <= x < 256 && 0 <= y < 256 && 0 <= z < 256
    ensures Bytes3(x / 4, x % 4 * 16 + y / 16, y % 16 * 4 + z / 64, z % 64) == [x as Byte, y as Byte, z as Byte]
  {
  }

  lemma {:induction false} DigitsShape(raw: Bytes)
    ensures |Digits(raw)| == |raw| / 3 * 4 + if |raw| % 3 == 0 then 0 else |raw| % 3 + 1
    ensures forall i | 0 <= i < |Digits(raw)| :: Digits(raw)[i] != '='
  {
    if |raw| > 2 {
      DigitsShape(raw[3..]);
    }
  }

  lemma {:induction false} StripPadsStops(s: string, n: nat)
    requires |s| == 0 || s[|s| - 1] != '='
    ensures StripPads(s + Pads(n)) == s
  {
    if n == 0 {
      assert s + Pads(n) == s;
    } else {
      PadsEnd(n);
      assert (s + Pads(n))[..|s + Pads(n)| - 1] == s + Pads(n - 1);
      StripPadsStops(s, n - 1);
    }
  }

  lemma {:induction false} PadsEnd(n: nat)
    ensures |Pads(n)| == n
    ensures n > 0 ==> Pads(n) == Pads(n - 1) + "="
  {
    if n > 0 {
      PadsEnd(n - 1);
    }
  }

  /** The padding `urlsafe_b64encode` writes. */
  function PadCount(n: nat): nat {
    if n % 3 == 0 then 0 else 3 - n % 3
  }

  lemma LengthTellsPadding(n: nat, length: nat)
    requires length == n / 3 * 4 + if n % 3 == 0 then 0 else n % 3 + 1
    ensures (0 - length) % 4 == PadCount(n)
  {
    assert length == 4 * (n / 3) + if n % 3 == 0 then 0 else n % 3 + 1;
    assert 0 - length == 4 * (0 - n / 3 - 1) + (4 - if n % 3 == 0 then 0 else n % 3 + 1);
  }

  /** Stripping loses nothing: the length alone tells how much padding to put back. */
  lemma PaddingComesBack(raw: Bytes)
    ensures EncodeCursor(raw) == Digits(raw)
    ensures Restored(EncodeCursor(raw)) == Encode(raw)
  {
    DigitsShape(raw);
    StripPadsStops(Digits(raw), PadCount(|raw|));
    LengthTellsPadding(|raw|, |Digits(raw)|);
  }

  lemma DecodeOne(x: int)
    requires 0 <= x < 256
    ensures Decode(EncodeGroup(x, 0, 0)[..2] + "==") == Some([x as Byte])
  {
    DigitsOfGroup(x, 0, 0);
    var g, s := EncodeGroup(x, 0, 0), EncodeGroup(x, 0, 0)[..2] + "==";
    assert |s| == 4 && s[0] == g[0] && s[1] == g[1] && s[2] == '=' && s[3] == '=';
    var bytes := Bytes3(x / 4, x % 4 * 16, 0, 0);
    assert Decode(s) == Some(bytes[..1]);
    assert bytes[..1] == [bytes[0]];
  }

  lemma DecodeTwo(x: int, y: int)
    requires 0 <= x < 256 && 0 <= y < 256
    ensures Decode(EncodeGroup(x, y, 0)[..3] + "=") == Some([x as Byte, y as Byte])
  {
    DigitsOfGroup(x, y, 0);
    var g, s := EncodeGroup(x, y, 0), EncodeGroup(x, y, 0)[..3] + "=";
    assert |s| == 4 && s[0] == g[0] && s[1] == g[1] && s[2] == g[2] && s[3] == '=';
    var bytes := Bytes3(x / 4, x % 4 * 16 + y / 16, y % 16 * 4, 0);
    assert Decode(s) == Some(bytes[..2]);
    assert bytes[..2] == [bytes[0], bytes[1]];
    GroupReadsBack(x, y, 0);
  }

  lemma DecodeThree(x: int, y: int, z: int, rest: string)
    requires 0 <= x < 256 && 0 <= y < 256 && 0 <= z < 256 && Decode(rest).Some?
    ensures Decode(EncodeGroup(x, y, z) + rest) == Some([x as Byte, y as Byte, z as Byte] + Decode(rest).value)
  {
    DigitsOfGroup(x, y, z);
    GroupReadsBack(x, y, z);
    var g, s := EncodeGroup(x, y, z), EncodeGroup(x, y, z) + rest;
    assert s[0] == g[0] && s[1] == g[1] && s[2] == g[2] && s[3] == g[3] && s[4..] == rest;
  }

  lemma EncodeSplits(raw: Bytes)
    requires |raw| > 2
    ensures Encode(raw) == EncodeGroup(raw[0] as int, raw[1] as int, raw[2] as int) + Encode(raw[3..])
    ensures raw == [raw[0], raw[1], raw[2]] + raw[3..]
  {
    assert PadCount(|raw|) == PadCount(|raw[3..]|);
  }

  lemma {:induction false} DecodeUndoesEncode(raw: Bytes)
    ensures Decode(Encode(raw)) == Some(raw)
  {
    if |raw| > 2 {
      DecodeUndoesEncode(raw[3..]);
      EncodeSplits(raw);
      DecodeThree(raw[0] as int, raw[1] as int, raw[2] as int, Encode(raw[3..]));
    } else if |raw| == 2 {
      DecodeTwo(raw[0] as int, raw[1] as int);
      assert Pads(1) == "=" && raw == [raw[0], raw[1]];
    } else if |raw| == 1 {
      DecodeOne(raw[0] as int);
      assert Pads(2) == "==" && raw == [raw[0]];
    }
  }

  lemma DigitsOfGroup(x: int, y: int, z: int)
    requires 0 <= x < 256 && 0 <= y < 256 && 0 <= z < 256
    ensures var g := EncodeGroup(x, y, z);
            && Value(g[0]) == Some(x / 4) && Value(g[1]) == Some(x % 4 * 16 + y / 16)
            && Value(g[2]) == Some(y % 16 * 4 + z / 64) && Value(g[3]) == Some(z % 64)
            && g[2] != '=' && g[3] != '='
  {
    DigitsReadBack(x / 4);
    DigitsReadBack(x % 4 * 16 + y / 16);
    DigitsReadBack(y % 16 * 4 + z / 64);
    DigitsReadBack(z % 64);
  }

  /** A cursor decodes to the payload it was made from, for every payload but the empty one. */
  lemma CursorRoundTrip(payload: Bytes)
    ensures DecodeCursor(EncodeCursor(payload)) == if |payload| == 0 then None else Some(payload)
  {
    PaddingComesBack(payload);
    DigitsShape(payload);
    DecodeUndoesEncode(payload);
  }
}
