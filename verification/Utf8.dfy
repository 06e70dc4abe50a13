// UTF-8: the encoding of Go's strings, and the decoder of section 8.1.1 of the WHATWG Encoding Standard, which
// browsers use, for any bytes.
module Utf8 {
  import opened Wrappers

  /** U+FFFD, shown in place of bytes that are not UTF-8. */
  const REPLACEMENT: char := '\U{FFFD}'

  // ----- encoding -----

  function EncodeChar(c: char): (r: seq<byte>)
    ensures 1 <= |r| <= 4
  {
    var n := c as int;
    if n < 0x80 then [n as byte]
    else if n < 0x800 then [(0xC0 + n / 64) as byte, Trail(n)]
    else if n < 0x1_0000 then [(0xE0 + n / 4096) as byte, Trail(n / 64), Trail(n)]
    else [(0xF0 + n / 262144) as byte, Trail(n / 4096), Trail(n / 64), Trail(n)]
  }

  function Trail(n: nat): byte {
    (0x80 + n % 64) as byte
  }

  function Encode(text: string): seq<byte> {
    if text == "" then [] else EncodeChar(text[0]) + Encode(text[1..])
  }

  // ----- decoding -----

  /** The decoder: what it has put out, the bits it has of an unfinished character, how many bytes of that are still to
      come, and between what bounds the next of them must be. */
  datatype Decoder = Decoder(out: string, point: nat, left: nat, lower: byte, upper: byte)

  function Between(out: string): Decoder {
    Decoder(out, 0, 0, 0x80, 0xBF)
  }

  /** The bounds keep out overlong forms, surrogates and what is above U+10FFFF. */
  predicate Ok(d: Decoder) {
    match d.left
    case 0 => d == Between(d.out)
    case 1 => d.lower == 0x80 && d.upper == 0xBF && 2 <= d.point < 0x4400 && !(0x360 <= d.point < 0x380)
    case 2 =>
      && d.point < 0x110
      && d.lower == (if d.point == 0 then 0xA0 else 0x80) && d.upper == (if d.point == 0xD then 0x9F else 0xBF)
    case 3 =>
      && d.point < 5
      && d.lower == (if d.point == 0 then 0x90 else 0x80) && d.upper == (if d.point == 4 then 0x8F else 0xBF)
    case _ => false
  }

  /** A byte where a character may begin. */
  function Lead(out: string, b: byte): (r: Decoder)
    ensures Ok(r) && out <= r.out
  {
    if b < 0x80 then Between(out + [b as char])
    else if 0xC2 <= b <= 0xDF then Decoder(out, (b - 0xC0) as nat, 1, 0x80, 0xBF)
    else if 0xE0 <= b <= 0xEF then
      Decoder(out, (b - 0xE0) as nat, 2, if b == 0xE0 then 0xA0 else 0x80, if b == 0xED then 0x9F else 0xBF)
    else if 0xF0 <= b <= 0xF4 then
      Decoder(out, (b - 0xF0) as nat, 3, if b == 0xF0 then 0x90 else 0x80, if b == 0xF4 then 0x8F else 0xBF)
    else Between(out + [REPLACEMENT])
  }

  /** One byte; one that cannot continue an unfinished character replaces that and is looked at afresh. */
  function Feed(d: Decoder, b: byte): (r: Decoder)
    requires Ok(d)
    ensures Ok(r) && d.out <= r.out
  {
    if d.left == 0 then Lead(d.out, b)
    else if !(d.lower <= b <= d.upper) then Lead(d.out + [REPLACEMENT], b)
    else
      var point := d.point * 64 + (b - 0x80) as nat;
      if d.left == 1 then Between(d.out + [point as char]) else Decoder(d.out, point, d.left - 1, 0x80, 0xBF)
  }

  function FeedAll(d: Decoder, bytes: seq<byte>): (r: Decoder)
    requires Ok(d)
    ensures Ok(r) && d.out <= r.out
    decreases |bytes|
  {
    if bytes == [] then d else FeedAll(Feed(d, bytes[0]), bytes[1..])
  }

  /** Where the bytes end, an unfinished character is replaced. */
  function Ended(d: Decoder): string {
    if d.left == 0 then d.out else d.out + [REPLACEMENT]
  }

  function Decode(bytes: seq<byte>): string {
    Ended(FeedAll(Between(""), bytes))
  }

  // ----- round trip -----

  lemma {:induction false} FeedConcat(d: Decoder, a: seq<byte>, b: seq<byte>)
    requires Ok(d)
    ensures FeedAll(d, a + b) == FeedAll(FeedAll(d, a), b)
    decreases |a|
  {
    if a == [] {
      assert a + b == b;
    } else {
      FeedConcat(Feed(d, a[0]), a[1..], b);
      assert (a + b)[1..] == a[1..] + b;
    }
  }

  /** A number below 64 times 64 times 64 times 32 is made of its digits to the base 64. */
  lemma Digits(n: nat)
    ensures n / 64 * 64 + n % 64 == n
    ensures n / 4096 * 64 + n / 64 % 64 == n / 64
    ensures n / 262144 * 64 + n / 4096 % 64 == n / 4096
  {
    assert n / 4096 == n / 64 / 64;
    assert n / 262144 == n / 4096 / 64;
  }

  /** Two bytes, three bytes, four bytes. */
  lemma FeedTwo(out: string, c: char)
    requires |EncodeChar(c)| == 2
    ensures var b := EncodeChar(c); var d := Feed(Between(out), b[0]);
            d.out == out && d.left == 1 && Feed(d, b[1]) == Between(out + [c])
  {
    Digits(c as nat);
  }

  lemma FeedThree(out: string, c: char)
    requires |EncodeChar(c)| == 3
    ensures var b := EncodeChar(c); var d := Feed(Between(out), b[0]); var e := Feed(d, b[1]);
            d.out == e.out == out && d.left == 2 && e.left == 1 && Feed(e, b[2]) == Between(out + [c])
  {
    Digits(c as nat);
  }

  lemma FeedFour(out: string, c: char)
    requires |EncodeChar(c)| == 4
    ensures var b := EncodeChar(c); var d := Feed(Between(out), b[0]); var e := Feed(d, b[1]); var f := Feed(e, b[2]);
            && d.out == e.out == f.out == out && d.left == 3 && e.left == 2 && f.left == 1
            && Feed(f, b[3]) == Between(out + [c])
  {
    Digits(c as nat);
  }

  /** The bytes of a character that is fed from a boundary put it out with the last of them, and nothing before. */
  lemma FeedChar(out: string, c: char, n: nat)
    requires n <= |EncodeChar(c)|
    ensures var d := FeedAll(Between(out), EncodeChar(c)[..n]);
            if n == |EncodeChar(c)| then d == Between(out + [c]) else d.out == out && (d.left == 0 <==> n == 0)
  {
    var bytes := EncodeChar(c);
    FeedFirst(Between(out), bytes, n);
    match |bytes| {
      case 2 => FeedTwo(out, c);
      case 3 => FeedThree(out, c);
      case 4 => FeedFour(out, c);
      case _ =>
    }
  }

  /** The first up to four bytes one by one. */
  lemma FeedFirst(d: Decoder, bytes: seq<byte>, n: nat)
    requires Ok(d) && n <= |bytes| && n <= 4
    ensures FeedAll(d, bytes[..n])
         == if n == 0 then d
            else if n == 1 then Feed(d, bytes[0])
            else if n == 2 then Feed(Feed(d, bytes[0]), bytes[1])
            else if n == 3 then Feed(Feed(Feed(d, bytes[0]), bytes[1]), bytes[2])
            else Feed(Feed(Feed(Feed(d, bytes[0]), bytes[1]), bytes[2]), bytes[3])
  {
    if n > 0 {
      FeedFirst(d, bytes, n - 1);
      FeedNext(d, bytes, n - 1);
    }
  }

  lemma FeedNext(d: Decoder, bytes: seq<byte>, n: nat)
    requires Ok(d) && n < |bytes|
    ensures FeedAll(d, bytes[..n + 1]) == Feed(FeedAll(d, bytes[..n]), bytes[n])
  {
    assert bytes[..n + 1] == bytes[..n] + [bytes[n]];
    FeedConcat(d, bytes[..n], [bytes[n]]);
    var e := FeedAll(d, bytes[..n]);
    assert FeedAll(e, [bytes[n]]) == FeedAll(Feed(e, bytes[n]), []);
  }

  lemma {:induction false} FeedText(out: string, text: string)
    ensures FeedAll(Between(out), Encode(text)) == Between(out + text)
    decreases |text|
  {
    if text == "" {
      assert out + text == out;
    } else {
      var bytes := EncodeChar(text[0]);
      FeedConcat(Between(out), bytes, Encode(text[1..]));
      assert bytes[..|bytes|] == bytes;
      FeedChar(out, text[0], |bytes|);
      FeedText(out + [text[0]], text[1..]);
      assert out + [text[0]] + text[1..] == out + text;
    }
  }

  /** What was encoded is decoded, for every text. */
  lemma RoundTrip(text: string)
    ensures Decode(Encode(text)) == text
  {
    FeedText("", text);
    assert "" + text == text;
  }

  lemma {:induction false} EncodeConcat(a: string, b: string)
    ensures Encode(a + b) == Encode(a) + Encode(b)
    decreases |a|
  {
    if a == "" {
      assert a + b == b;
    } else {
      EncodeConcat(a[1..], b);
      assert (a + b)[1..] == a[1..] + b && (a + b)[0] == a[0];
      Assoc(EncodeChar(a[0]), Encode(a[1..]), Encode(b));
    }
  }

  lemma Assoc(a: seq<byte>, b: seq<byte>, c: seq<byte>)
    ensures a + b + c == a + (b + c)
  {
  }

  lemma EncodePrefix(a: string, b: string)
    requires a <= b
    ensures Encode(a) <= Encode(b)
  {
    assert b == a + b[|a|..];
    EncodeConcat(a, b[|a|..]);
  }

  // ----- cut anywhere -----

  /** Of any bytes, a first part decodes to the first of the text, with at most one replacement at the end. */
  lemma CutBytes(part: seq<byte>, whole: seq<byte>) returns (out: string)
    requires part <= whole
    ensures out <= Decode(whole) && (Decode(part) == out || Decode(part) == out + [REPLACEMENT])
  {
    var d := FeedAll(Between(""), part);
    out := d.out;
    FeedConcat(Between(""), part, whole[|part|..]);
    assert part + whole[|part|..] == whole;
  }

  /** Of the bytes of a text, a first part decodes to the first of the text, and the character it was cut in is
      replaced. */
  lemma CutText(part: seq<byte>, text: string) returns (k: nat)
    requires part <= Encode(text)
    ensures k <= |text| && (Decode(part) == text[..k] || Decode(part) == text[..k] + [REPLACEMENT])
  {
    var out := CutBytes(part, Encode(text));
    RoundTrip(text);
    k := |out|;
  }

  /** A byte below 128 gets through whatever stands before it, also an unfinished or ill-formed character: no line
      break of a stream is ever swallowed, and none appears. */
  lemma AsciiGetsThrough(bytes: seq<byte>, b: byte)
    requires b < 0x80
    ensures Decode(bytes + [b]) == Decode(bytes) + [b as char]
  {
    var d := FeedAll(Between(""), bytes);
    FeedConcat(Between(""), bytes, [b]);
    assert FeedAll(d, [b]) == FeedAll(Feed(d, b), []);
  }
}
