/** The base64url text of a noise frame payload, without padding (RFC 4648, sections 3.2, 3.5 and 5). */
module Base64Url {
  import opened Wrappers
  import opened FileSystem

  type Sextet = x: int | 0 <= x < 64

  // ---------- the alphabet ----------

  function CharOf(v: Sextet): char {
    if v < 26 then 'A' + v as char
    else if v < 52 then 'a' + (v - 26) as char
    else if v < 62 then '0' + (v - 52) as char
    else if v == 62 then '-' else '_'
  }

  function ValueOf(c: char): Option<Sextet> {
    if 'A' <= c <= 'Z' then Some(c as int - 'A' as int)
    else if 'a' <= c <= 'z' then Some(c as int - 'a' as int + 26)
    else if '0' <= c <= '9' then Some(c as int - '0' as int + 52)
    else if c == '-' then Some(62)
    else if c == '_' then Some(63)
    else None
  }

  lemma AlphabetRoundTrip(v: Sextet)
    ensures ValueOf(CharOf(v)) == Some(v) && CharOf(v) != '='
  {
  }

  lemma AlphabetBack(c: char)
    requires ValueOf(c).Some?
    ensures CharOf(ValueOf(c).value) == c && c != '='
  {
  }

  // ---------- the padded codec of the library ----------

  /** Three bytes as four sextets. */
  function Split3(a: Byte, b: Byte, c: Byte): (Sextet, Sextet, Sextet, Sextet) {
    (a / 4, a % 4 * 16 + b / 16, b % 16 * 4 + c / 64, c % 64)
  }

  /** Four sextets as three bytes. */
  function Merge4(p: Sextet, q: Sextet, r: Sextet, s: Sextet): (Byte, Byte, Byte) {
    (p * 4 + q / 16, q % 16 * 16 + r / 4, r % 4 * 64 + s)
  }

  function Quad(a: Byte, b: Byte, c: Byte): (s: string)
    ensures |s| == 4
  {
    var (p, q, r, s) := Split3(a, b, c);
    [CharOf(p), CharOf(q), CharOf(r), CharOf(s)]
  }

  function Encode(bytes: Bytes): string {
    if |bytes| == 0 then ""
    else if |bytes| == 1 then Quad(bytes[0], 0, 0)[..2] + "=="
    else if |bytes| == 2 then Quad(bytes[0], bytes[1], 0)[..3] + "="
    else Quad(bytes[0], bytes[1], bytes[2]) + Encode(bytes[3..])
  }

  /** Four characters that each have a value, as three bytes. */
  function DecodeFull(s: string): Option<Bytes>
    requires |s| == 4
  {
    var p, q, r, t := ValueOf(s[0]), ValueOf(s[1]), ValueOf(s[2]), ValueOf(s[3]);
    if p.None? || q.None? || r.None? || t.None? then None
    else var (a, b, c) := Merge4(p.value, q.value, r.value, t.value); Some([a, b, c])
  }

  /** The last group, with one or two pads; the bits no byte uses have to be zero. */
  function DecodeLast(s: string): Option<Bytes>
    requires |s| == 4 && s[3] == '='
  {
    var p, q, r := ValueOf(s[0]), ValueOf(s[1]), ValueOf(s[2]);
    if p.None? || q.None? then None
    else if s[2] == '=' then
      (if q.value % 16 != 0 then None else Some([Merge4(p.value, q.value, 0, 0).0]))
    else if r.None? || r.value % 4 != 0 then None
    else var (a, b, _) := Merge4(p.value, q.value, r.value, 0); Some([a, b])
  }

  /** A strict decoder: padding required, and only at the end. */
  function Decode(s: string): Option<Bytes> {
    if s == "" then Some([])
    else if |s| < 4 then None
    else if |s| == 4 && s[3] == '=' then DecodeLast(s)
    else
      match DecodeFull(s[..4])
      case None => None
      case Some(head) =>
        match Decode(s[4..])
        case None => None
        case Some(rest) => Some(head + rest)
  }

  // ---------- envelope.rs ----------

  function TrimPad(s: string): string {
    if s != "" && s[|s| - 1] == '=' then TrimPad(s[..|s| - 1]) else s
  }

  function Pads(n: nat): string {
    seq(n, _ => '=')
  }

  function MissingPad(s: string): nat {
    (4 - |s| % 4) % 4
  }

  /** to_base64url */
  function ToUrl(bytes: Bytes): string {
    TrimPad(Encode(bytes))
  }

  /** from_base64url */
  function FromUrl(s: string): Option<Bytes> {
    Decode(s + Pads(MissingPad(s)))
  }

  // ---------- the padded codec round trips ----------

  lemma DivMod(x: nat, y: nat, d: nat)
    requires d == 4 || d == 16 || d == 64
    requires y < d
    ensures (x * d + y) / d == x && (x * d + y) % d == y
  {
    if d == 4 {
      assert (x * 4 + y) / 4 == x;
    } else if d == 16 {
      assert (x * 16 + y) / 16 == x;
    } else {
      assert (x * 64 + y) / 64 == x;
    }
  }

  lemma SplitMerge(a: Byte, b: Byte, c: Byte)
    ensures var (p, q, r, s) := Split3(a, b, c); Merge4(p, q, r, s) == (a, b, c)
  {
    DivMod(a % 4, b / 16, 16);
    DivMod(b % 16, c / 64, 4);
  }

  lemma MergeSplit(p: Sextet, q: Sextet, r: Sextet, s: Sextet)
    ensures var (a, b, c) := Merge4(p, q, r, s); Split3(a, b, c) == (p, q, r, s)
  {
    DivMod(p, q / 16, 4);
    DivMod(q % 16, r / 4, 16);
    DivMod(r % 4, s, 64);
  }

  lemma QuadValues(a: Byte, b: Byte, c: Byte)
    ensures var (p, q, r, s) := Split3(a, b, c);
            var text := Quad(a, b, c);
            && ValueOf(text[0]) == Some(p) && ValueOf(text[1]) == Some(q) && ValueOf(text[2]) == Some(r)
               && ValueOf(text[3]) == Some(s)
            && '=' !in text
  {
    var (p, q, r, s) := Split3(a, b, c);
    AlphabetRoundTrip(p);
    AlphabetRoundTrip(q);
    AlphabetRoundTrip(r);
    AlphabetRoundTrip(s);
  }

  lemma DecodeOne(a: Byte)
    ensures Decode(Quad(a, 0, 0)[..2] + "==") == Some([a])
  {
    QuadValues(a, 0, 0);
    SplitMerge(a, 0, 0);
    hide Quad, CharOf, ValueOf;
  }

  lemma DecodeTwo(a: Byte, b: Byte)
    ensures Decode(Quad(a, b, 0)[..3] + "=") == Some([a, b])
  {
    var text := Quad(a, b, 0);
    QuadValues(a, b, 0);
    SplitMerge(a, b, 0);
    assert text[2] in text && text[2] != '=';
    hide Quad, CharOf, ValueOf;
  }

  lemma FullQuad(a: Byte, b: Byte, c: Byte)
    ensures DecodeFull(Quad(a, b, c)) == Some([a, b, c])
    ensures Quad(a, b, c)[3] != '='
  {
    var text := Quad(a, b, c);
    QuadValues(a, b, c);
    SplitMerge(a, b, c);
    assert text[3] in text;
    hide Quad, CharOf, ValueOf, Split3, Merge4;
  }

  lemma DecodeThree(a: Byte, b: Byte, c: Byte, rest: string)
    requires Decode(rest).Some?
    ensures Decode(Quad(a, b, c) + rest) == Some([a, b, c] + Decode(rest).value)
  {
    hide Quad, DecodeFull, DecodeLast;
    var text := Quad(a, b, c) + rest;
    FullQuad(a, b, c);
    assert text[..4] == Quad(a, b, c);
    assert text[4..] == rest;
  }

  lemma {:induction false} DecodeEncode(bytes: Bytes)
    ensures Decode(Encode(bytes)) == Some(bytes)
  {
    hide Decode, Quad;
    if |bytes| == 0 {
      DecodeNothing();
    } else if |bytes| == 1 {
      DecodeOne(bytes[0]);
      assert bytes == [bytes[0]];
    } else if |bytes| == 2 {
      DecodeTwo(bytes[0], bytes[1]);
      assert bytes == [bytes[0], bytes[1]];
    } else {
      DecodeEncode(bytes[3..]);
      DecodeThree(bytes[0], bytes[1], bytes[2], Encode(bytes[3..]));
      assert [bytes[0], bytes[1], bytes[2]] + bytes[3..] == bytes;
    }
  }

  lemma DecodeNothing()
    ensures Decode("") == Some([])
  {
  }

  /** The quad a decoded group is encoded to is the one it was read from. */
  lemma QuadBack(p: char, q: char, r: char, t: char)
    requires ValueOf(p).Some? && ValueOf(q).Some? && ValueOf(r).Some? && ValueOf(t).Some?
    ensures var (a, b, c) := Merge4(ValueOf(p).value, ValueOf(q).value, ValueOf(r).value, ValueOf(t).value);
            Quad(a, b, c) == [p, q, r, t]
  {
    MergeSplit(ValueOf(p).value, ValueOf(q).value, ValueOf(r).value, ValueOf(t).value);
    AlphabetBack(p);
    AlphabetBack(q);
    AlphabetBack(r);
    AlphabetBack(t);
    hide CharOf, ValueOf, Merge4, Split3;
  }

  lemma MergeTail(p: Sextet, q: Sextet, r: Sextet)
    ensures Merge4(p, q, r, 0).2 == r % 4 * 64
    ensures Merge4(p, q, 0, 0).1 == q % 16 * 16 && Merge4(p, q, 0, 0).2 == 0
    ensures Merge4(p, q, r, 0).0 == Merge4(p, q, 0, 0).0
  {
  }

  lemma EncodeOne(s: string)
    requires |s| == 4 && s[2] == '=' && s[3] == '=' && Decode(s).Some?
    ensures Encode(Decode(s).value) == s
  {
    var p, q := ValueOf(s[0]).value, ValueOf(s[1]).value;
    QuadBack(s[0], s[1], 'A', 'A');
    MergeTail(p, q, 0);
    hide Merge4, Quad, CharOf;
    assert Decode(s).value == [Merge4(p, q, 0, 0).0];
  }

  lemma EncodeTwo(s: string)
    requires |s| == 4 && s[2] != '=' && s[3] == '=' && Decode(s).Some?
    ensures Encode(Decode(s).value) == s
  {
    var p, q, r := ValueOf(s[0]).value, ValueOf(s[1]).value, ValueOf(s[2]).value;
    QuadBack(s[0], s[1], s[2], 'A');
    MergeTail(p, q, r);
    hide Merge4, Quad, CharOf;
    assert Decode(s).value == [Merge4(p, q, r, 0).0, Merge4(p, q, r, 0).1];
  }

  lemma EncodeThree(a: Byte, b: Byte, c: Byte, rest: Bytes)
    ensures Encode([a, b, c] + rest) == Quad(a, b, c) + Encode(rest)
  {
    hide Quad;
    assert ([a, b, c] + rest)[3..] == rest;
  }

  lemma {:induction false} EncodeDecode(s: string)
    requires Decode(s).Some?
    ensures Encode(Decode(s).value) == s
  {
    hide ValueOf, Merge4, Quad, Encode, DecodeLast, DecodeFull;
    if s == "" {
      EncodeNothing();
    } else if |s| == 4 && s[3] == '=' {
      if s[2] == '=' {
        EncodeOne(s);
      } else {
        EncodeTwo(s);
      }
    } else {
      EncodeDecode(s[4..]);
      EncodeFull(s[..4], Decode(s[4..]).value);
      assert s[..4] + s[4..] == s;
    }
  }

  lemma EncodeFull(s: string, rest: Bytes)
    requires |s| == 4 && DecodeFull(s).Some?
    ensures Encode(DecodeFull(s).value + rest) == s + Encode(rest)
  {
    hide ValueOf, Merge4, Quad, Encode;
    QuadBack(s[0], s[1], s[2], s[3]);
    var (a, b, c) := Merge4(ValueOf(s[0]).value, ValueOf(s[1]).value, ValueOf(s[2]).value, ValueOf(s[3]).value);
    EncodeThree(a, b, c, rest);
    assert s == [s[0], s[1], s[2], s[3]];
  }

  lemma EncodeNothing()
    ensures Encode([]) == ""
  {
  }

  // ---------- stripping and restoring the padding ----------

  /** How many groups of four the text of n bytes has. */
  function Groups(n: nat): nat {
    if n == 0 then 0 else if n < 3 then 1 else 1 + Groups(n - 3)
  }

  /** How many '=' the padded text of n bytes ends in. */
  function PadCount(n: nat): (k: nat)
    ensures k <= 2
  {
    if n == 0 then 0 else if n == 1 then 2 else if n == 2 then 1 else PadCount(n - 3)
  }

  /** A text of clean characters followed by k pads. */
  predicate Padded(s: string, k: nat) {
    k <= |s| && '=' !in s[..|s| - k] && s[|s| - k..] == Pads(k)
  }

  lemma PaddedAppend(head: string, s: string, k: nat)
    requires '=' !in head && Padded(s, k)
    ensures Padded(head + s, k)
  {
    var t := head + s;
    assert t[..|t| - k] == head + s[..|s| - k];
    assert t[|t| - k..] == s[|s| - k..];
  }

  lemma {:induction false} EncodeShape(bytes: Bytes)
    ensures Padded(Encode(bytes), PadCount(|bytes|))
    ensures |Encode(bytes)| == 4 * Groups(|bytes|)
  {
    hide Quad;
    if |bytes| == 1 {
      QuadValues(bytes[0], 0, 0);
      var head := Quad(bytes[0], 0, 0)[..2];
      assert Padded("==", 2);
      PaddedAppend(head, "==", 2);
    } else if |bytes| == 2 {
      QuadValues(bytes[0], bytes[1], 0);
      assert Padded("=", 1);
      PaddedAppend(Quad(bytes[0], bytes[1], 0)[..3], "=", 1);
    } else if |bytes| >= 3 {
      QuadValues(bytes[0], bytes[1], bytes[2]);
      EncodeShape(bytes[3..]);
      PaddedAppend(Quad(bytes[0], bytes[1], bytes[2]), Encode(bytes[3..]), PadCount(|bytes| - 3));
    }
  }

  lemma MissingPadIs(s: string, groups: nat, k: nat)
    requires |s| == 4 * groups - k && k <= 2
    ensures MissingPad(s) == k
  {
    if k == 0 {
      assert |s| % 4 == 0;
    } else {
      assert |s| == 4 * (groups - 1) + (4 - k);
      assert |s| % 4 == 4 - k;
    }
  }

  lemma {:induction false} TrimPads(s: string, k: nat)
    requires '=' !in s
    ensures TrimPad(s + Pads(k)) == s
  {
    if k == 0 {
      assert s + Pads(0) == s;
    } else {
      assert (s + Pads(k))[..|s| + k - 1] == s + Pads(k - 1);
      TrimPads(s, k - 1);
    }
  }

  /** The unpadded text holds no '=', and the padding put back is the padding taken off. */
  lemma PadRestored(bytes: Bytes)
    ensures '=' !in ToUrl(bytes)
    ensures ToUrl(bytes) + Pads(MissingPad(ToUrl(bytes))) == Encode(bytes)
    ensures MissingPad(ToUrl(bytes)) == |Encode(bytes)| - |ToUrl(bytes)|
  {
    EncodeShape(bytes);
    var s, k := Encode(bytes), PadCount(|bytes|);
    hide Encode, PadCount, TrimPad, MissingPad, Groups;
    var text := s[..|s| - k];
    assert text + Pads(k) == s;
    TrimPads(text, k);
    MissingPadIs(text, Groups(|bytes|), k);
  }

  /** Decoding the encoding gives every byte string back. */
  lemma DecodesBack(bytes: Bytes)
    ensures FromUrl(ToUrl(bytes)) == Some(bytes)
  {
    hide Encode, Decode, TrimPad, MissingPad;
    PadRestored(bytes);
    DecodeEncode(bytes);
  }

  /** Encoding an accepted text gives that text back exactly when it holds no '='. */
  lemma EncodesBackIff(s: string)
    requires FromUrl(s).Some?
    ensures ToUrl(FromUrl(s).value) == s <==> '=' !in s
  {
    hide Encode, Decode, TrimPad, MissingPad;
    var bytes := FromUrl(s).value;
    PadRestored(bytes);
    EncodeDecode(s + Pads(MissingPad(s)));
    if '=' !in s {
      TrimPads(s, MissingPad(s));
      assert ToUrl(bytes) == TrimPad(s + Pads(MissingPad(s)));
    }
  }

  /** A text with '=' can be accepted all the same: one that brings its own padding. */
  lemma PaddedIsAccepted(bytes: Bytes)
    ensures FromUrl(Encode(bytes)) == Some(bytes)
  {
    DecodeEncode(bytes);
    EncodeShape(bytes);
    hide Encode, Decode, MissingPad, Groups;
    MissingPadIs(Encode(bytes), Groups(|bytes|), 0);
    assert Encode(bytes) + Pads(0) == Encode(bytes);
  }

  // ---------- the text itself ----------

  /** Table 2 of RFC 4648, in its order. */
  function Letter(v: Sextet): char {
    if v < 26 then "ABCDEFGHIJKLMNOPQRSTUVWXYZ"[v]
    else if v < 52 then "abcdefghijklmnopqrstuvwxyz"[v - 26]
    else "0123456789-_"[v - 52]
  }

  lemma LetterIs(v: Sextet)
    ensures CharOf(v) == Letter(v)
  {
  }

  /** The byte at a position, zero past the end. */
  function ByteAt(bytes: Bytes, i: nat): Byte {
    if i < |bytes| then bytes[i] else 0
  }

  /** Three bytes in a row as one number of 24 bits. */
  function Number24(bytes: Bytes, i: nat): nat {
    ByteAt(bytes, i) * 65536 + ByteAt(bytes, i + 1) * 256 + ByteAt(bytes, i + 2)
  }

  /** The digit to base 64 of a number that k digits come after. */
  function DigitOf(n: nat, k: nat): Sextet {
    if k == 0 then n % 64 else DigitOf(n / 64, k - 1)
  }

  lemma FourDigits(p: Sextet, q: Sextet, r: Sextet, s: Sextet)
    ensures var n := ((p * 64 + q) * 64 + r) * 64 + s;
            DigitOf(n, 3) == p && DigitOf(n, 2) == q && DigitOf(n, 1) == r && DigitOf(n, 0) == s
  {
    var n := ((p * 64 + q) * 64 + r) * 64 + s;
    DivMod((p * 64 + q) * 64 + r, s, 64);
    DivMod(p * 64 + q, r, 64);
    DivMod(p, q, 64);
    assert DigitOf(n, 1) == DigitOf(n / 64, 0) && DigitOf(n, 2) == DigitOf(n / 64 / 64, 0);
    assert DigitOf(n, 3) == DigitOf(n / 64, 2) == DigitOf(n / 64 / 64, 1) == DigitOf(n / 64 / 64 / 64, 0);
  }

  lemma SplitDigits(a: Byte, b: Byte, c: Byte)
    ensures var (p, q, r, s) := Split3(a, b, c); ((p * 64 + q) * 64 + r) * 64 + s == a * 65536 + b * 256 + c
  {
    assert a == a / 4 * 4 + a % 4 && b == b / 16 * 16 + b % 16 && c == c / 64 * 64 + c % 64;
  }

  lemma QuadLetters(a: Byte, b: Byte, c: Byte, k: nat)
    requires k < 4
    ensures Quad(a, b, c)[k] == Letter(DigitOf(a * 65536 + b * 256 + c, 3 - k))
  {
    hide DigitOf, Letter, CharOf, Split3;
    var (p, q, r, s) := Split3(a, b, c);
    SplitDigits(a, b, c);
    FourDigits(p, q, r, s);
    LetterIs(p);
    LetterIs(q);
    LetterIs(r);
    LetterIs(s);
  }

  lemma {:induction false} EncodedAt(bytes: Bytes, k: nat)
    requires k < 4 * Groups(|bytes|) - PadCount(|bytes|)
    ensures k < |Encode(bytes)| && Encode(bytes)[k] == Letter(DigitOf(Number24(bytes, k / 4 * 3), 3 - k % 4))
  {
    hide Quad, DigitOf, Letter;
    if |bytes| == 1 {
      QuadLetters(bytes[0], 0, 0, k);
    } else if |bytes| == 2 {
      QuadLetters(bytes[0], bytes[1], 0, k);
    } else if k < 4 {
      QuadLetters(bytes[0], bytes[1], bytes[2], k);
    } else {
      EncodedAt(bytes[3..], k - 4);
      assert (k - 4) / 4 * 3 + 3 == k / 4 * 3 && (k - 4) % 4 == k % 4;
      assert Number24(bytes[3..], (k - 4) / 4 * 3) == Number24(bytes, k / 4 * 3);
    }
  }

  lemma {:induction false} TextLength(n: nat)
    ensures 4 * Groups(n) - PadCount(n) == (4 * n + 2) / 3
  {
    if n >= 3 {
      TextLength(n - 3);
      assert 4 * n + 2 == 4 * (n - 3) + 2 + 12;
    }
  }

  /** The text of n bytes has the least length that holds 8n bits, and its k-th letter stands for bits 6k to 6k + 5,
      zeros making up the last. */
  lemma TextIs(bytes: Bytes)
    ensures |ToUrl(bytes)| == (4 * |bytes| + 2) / 3
    ensures forall k :: 0 <= k < |ToUrl(bytes)| ==>
              ToUrl(bytes)[k] == Letter(DigitOf(Number24(bytes, k / 4 * 3), 3 - k % 4))
  {
    hide Encode, TrimPad, MissingPad, DigitOf, Letter, Groups, PadCount;
    PadRestored(bytes);
    TextLength(|bytes|);
    UnpaddedLength(bytes);
    forall k | 0 <= k < |ToUrl(bytes)|
      ensures ToUrl(bytes)[k] == Letter(DigitOf(Number24(bytes, k / 4 * 3), 3 - k % 4))
    {
      EncodedAt(bytes, k);
      assert (ToUrl(bytes) + Pads(MissingPad(ToUrl(bytes))))[k] == ToUrl(bytes)[k];
    }
  }

  lemma UnpaddedLength(bytes: Bytes)
    ensures |ToUrl(bytes)| == 4 * Groups(|bytes|) - PadCount(|bytes|)
  {
    EncodeShape(bytes);
    var s, k := Encode(bytes), PadCount(|bytes|);
    hide Encode, PadCount, TrimPad, Groups;
    assert s[..|s| - k] + Pads(k) == s;
    TrimPads(s[..|s| - k], k);
  }
}
