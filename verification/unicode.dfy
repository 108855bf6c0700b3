/** Text as Unicode scalar values, in bytes (UTF-8, section 3 of RFC 3629) and in 16-bit code
    units (UTF-16, section 2 of RFC 2781). */
module Unicode {
  import opened Options

  /** A character by its code point, surrogates left out. */
  type Char = c: nat | c < 0xD800 || 0xE000 <= c < 0x11_0000

  type Text = seq<Char>

  type Byte = b: nat | b < 0x100

  type CodeUnit = u: nat | u < 0x1_0000

  function Cons(c: Char, rest: Option<Text>): Option<Text> {
    if rest.Some? then Some([c] + rest.value) else None
  }

  // ---------- Code units ----------

  function CharUnits(c: Char): seq<CodeUnit> {
    if c < 0x1_0000 then [c] else [0xD800 + (c - 0x1_0000) / 0x400, 0xDC00 + (c - 0x1_0000) % 0x400]
  }

  function Utf16(text: Text): seq<CodeUnit> {
    if text == [] then [] else CharUnits(text[0]) + Utf16(text[1..])
  }

  /** The text of code units; none where a surrogate is not one of a pair. */
  function FromUtf16(units: seq<CodeUnit>): Option<Text> {
    if units == [] then Some([])
    else if units[0] < 0xD800 || 0xE000 <= units[0] then Cons(units[0], FromUtf16(units[1..]))
    else if units[0] < 0xDC00 && |units| > 1 && 0xDC00 <= units[1] < 0xE000 then
      var high: int, low: int := units[0], units[1];
      Cons(0x1_0000 + (high - 0xD800) * 0x400 + (low - 0xDC00), FromUtf16(units[2..]))
    else None
  }

  lemma {:induction false} FirstOfUnits(c: Char, rest: seq<CodeUnit>)
    ensures FromUtf16(CharUnits(c) + rest) == Cons(c, FromUtf16(rest))
  {
    var units := CharUnits(c) + rest;
    assert units[|CharUnits(c)|..] == rest;
  }

  /** Code units give back the text they are of. */
  lemma {:induction false} Utf16RoundTrip(text: Text)
    ensures FromUtf16(Utf16(text)) == Some(text)
  {
    if text != [] {
      FirstOfUnits(text[0], Utf16(text[1..]));
      Utf16RoundTrip(text[1..]);
      assert text == [text[0]] + text[1..];
    }
  }

  lemma {:induction false} Utf16Append(text: Text, c: Char)
    ensures Utf16(text + [c]) == Utf16(text) + CharUnits(c)
  {
    if text == [] {
      assert [] + [c] == [c] && [c][1..] == [];
    } else {
      assert (text + [c])[1..] == text[1..] + [c];
      Utf16Append(text[1..], c);
    }
  }

  // ---------- Bytes ----------

  function CharBytes(c: Char): seq<Byte> {
    if c < 0x80 then [c]
    else if c < 0x800 then [0xC0 + c / 0x40, 0x80 + c % 0x40]
    else if c < 0x1_0000 then [0xE0 + c / 0x1000, 0x80 + c / 0x40 % 0x40, 0x80 + c % 0x40]
    else [0xF0 + c / 0x4_0000, 0x80 + c / 0x1000 % 0x40, 0x80 + c / 0x40 % 0x40, 0x80 + c % 0x40]
  }

  function Utf8(text: Text): seq<Byte> {
    if text == [] then [] else CharBytes(text[0]) + Utf8(text[1..])
  }

  /** How many bytes a character has, by its first byte; none continues another's. */
  function Width(first: Byte): Option<nat> {
    if first < 0x80 then Some(1)
    else if 0xC0 <= first < 0xE0 then Some(2)
    else if 0xE0 <= first < 0xF0 then Some(3)
    else if 0xF0 <= first < 0xF8 then Some(4)
    else None
  }

  /** The code point of one character's bytes. */
  function CodePoint(b: seq<Byte>): int
    requires 1 <= |b| <= 4
  {
    var first: int := b[0];
    if |b| == 1 then first
    else if |b| == 2 then (first - 0xC0) * 0x40 + Rest(b[1])
    else if |b| == 3 then (first - 0xE0) * 0x1000 + Rest(b[1]) * 0x40 + Rest(b[2])
    else (first - 0xF0) * 0x4_0000 + Rest(b[1]) * 0x1000 + Rest(b[2]) * 0x40 + Rest(b[3])
  }

  /** What a byte that continues a character adds to it. */
  function Rest(b: Byte): int { b as int - 0x80 }

  predicate IsScalar(c: int) { 0 <= c < 0xD800 || 0xE000 <= c < 0x11_0000 }

  /** The text of bytes; none where they are cut short or name no character. */
  function FromUtf8(bytes: seq<Byte>): Option<Text> {
    if bytes == [] then Some([])
    else
      var width := Width(bytes[0]);
      if width.None? || |bytes| < width.value || !IsScalar(CodePoint(bytes[..width.value])) then None
      else Cons(CodePoint(bytes[..width.value]), FromUtf8(bytes[width.value..]))
  }

  lemma Sixths(c: nat)
    ensures c == c / 0x40 * 0x40 + c % 0x40
    ensures c / 0x40 == c / 0x1000 * 0x40 + c / 0x40 % 0x40
    ensures c / 0x1000 == c / 0x4_0000 * 0x40 + c / 0x1000 % 0x40
  {
    assert c / 0x40 / 0x40 == c / 0x1000;
    assert c / 0x1000 / 0x40 == c / 0x4_0000;
  }

  lemma CharOfBytes(c: Char)
    ensures Width(CharBytes(c)[0]) == Some(|CharBytes(c)|) && CodePoint(CharBytes(c)) == c
  {
    Sixths(c);
  }

  lemma {:induction false} FirstOfBytes(c: Char, rest: seq<Byte>)
    ensures FromUtf8(CharBytes(c) + rest) == Cons(c, FromUtf8(rest))
  {
    var b := CharBytes(c);
    CharOfBytes(c);
    assert (b + rest)[..|b|] == b && (b + rest)[|b|..] == rest;
  }

  /** Bytes give back the text they are of. */
  lemma {:induction false} Utf8RoundTrip(text: Text)
    ensures FromUtf8(Utf8(text)) == Some(text)
  {
    if text != [] {
      FirstOfBytes(text[0], Utf8(text[1..]));
      Utf8RoundTrip(text[1..]);
      assert text == [text[0]] + text[1..];
    }
  }

  lemma {:induction false} Utf8Append(text: Text, c: Char)
    ensures Utf8(text + [c]) == Utf8(text) + CharBytes(c)
  {
    if text == [] {
      assert [] + [c] == [c] && [c][1..] == [];
    } else {
      assert (text + [c])[1..] == text[1..] + [c];
      Utf8Append(text[1..], c);
    }
  }
}
