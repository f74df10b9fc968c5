/** Decoding of the string escapes of section 7 of RFC 8259, as `unescape`
    does it: a byte below 0x20 or a malformed escape makes the whole
    decoding fail, and the caller then sees the empty string. */
module Escapes {
  import opened Text

  /** The byte a one-letter escape stands for: `\\ \/ \b \f \n \r \t \"`. */
  function EscapedByte(c: Byte): Option<Byte>
  {
    match c
    case '\\' => Some('\\')
    case '/' => Some('/')
    case 'b' => Some(8 as char)
    case 'f' => Some(12 as char)
    case 'n' => Some('\n')
    case 'r' => Some('\r')
    case 't' => Some('\t')
    case '"' => Some('"')
    case _ => None
  }

  /** Value of one hexadecimal digit.  `upperHex` selects whether `A`-`F`
      are digits: the source tests the range `a`-`f` twice, so as written
      they are not. */
  function HexDigit(c: Byte, upperHex: bool): (r: Option<nat>)
    ensures r.Some? ==> r.value < 16
  {
    if '0' <= c <= '9' then Some(c as int - '0' as int)
    else if 'a' <= c <= 'f' then Some(c as int - 'a' as int + 10)
    else if upperHex && 'A' <= c <= 'F' then Some(c as int - 'A' as int + 10)
    else None
  }

  /** The code point written by the digits `d`, most significant first. */
  function HexValue(d: Bytes, upperHex: bool): (r: Option<nat>)
    ensures r.Some? ==> r.value < Pow16(|d|)
  {
    if d == [] then Some(0)
    else AppendDigit(HexValue(d[..|d| - 1], upperHex), HexDigit(d[|d| - 1], upperHex), |d| - 1)
  }

  /** One more digit to the right of `high`, the value of `n` earlier digits. */
  function AppendDigit(high: Option<nat>, low: Option<nat>, n: nat): (r: Option<nat>)
    requires high.Some? ==> high.value < Pow16(n)
    requires low.Some? ==> low.value < 16
    ensures r.Some? ==> r.value < Pow16(n + 1)
  {
    if high.Some? && low.Some? then Some(high.value * 16 + low.value) else None
  }

  function Pow16(n: nat): (r: nat)
    ensures r >= 1
  {
    if n == 0 then 1 else 16 * Pow16(n - 1)
  }

  /** Go's `string(rune)` for a code point below 0x10000: its UTF-8
      encoding, with the surrogate halves replaced by U+FFFD. */
  function EncodeRune(code: nat): (r: Bytes)
    requires code < 0x10000
    ensures 1 <= |r| <= 3
  {
    if code < 0x80 then [code as char]
    else if code < 0x800 then [(0xC0 + code / 64) as char, (0x80 + code % 64) as char]
    else if 0xD800 <= code <= 0xDFFF then [0xEF as char, 0xBF as char, 0xBD as char]
    else [(0xE0 + code / 4096) as char, (0x80 + code / 64 % 64) as char, (0x80 + code % 64) as char]
  }

  /** UTF-8 decoding of a one-, two- or three-byte sequence. */
  function DecodeRune(b: Bytes): int
  {
    if |b| == 1 then b[0] as int
    else if |b| == 2 then (b[0] as int - 0xC0) * 64 + (b[1] as int - 0x80)
    else if |b| == 3 then (b[0] as int - 0xE0) * 4096 + (b[1] as int - 0x80) * 64 + (b[2] as int - 0x80)
    else 0
  }

  function Prepend(prefix: Bytes, rest: Option<Bytes>): Option<Bytes>
  {
    match rest
    case None => None
    case Some(t) => Some(prefix + t)
  }

  lemma PrependNothing(rest: Option<Bytes>)
    ensures Prepend([], rest) == rest
  {
    if rest.Some? { assert [] + rest.value == rest.value; }
  }

  lemma PrependTwice(a: Bytes, b: Bytes, rest: Option<Bytes>)
    ensures Prepend(a, Prepend(b, rest)) == Prepend(a + b, rest)
  {
    if rest.Some? { assert a + (b + rest.value) == (a + b) + rest.value; }
  }

  /** The decoded string, or None when `unescape` gives up. */
  function Decode(s: Bytes, upperHex: bool): Option<Bytes>
    decreases |s|
  {
    if s == [] then Some([])
    else if s[0] < ' ' then None
    else if s[0] != '\\' then Prepend([s[0]], Decode(s[1..], upperHex))
    else if |s| == 1 then None
    else if EscapedByte(s[1]).Some? then Prepend([EscapedByte(s[1]).value], Decode(s[2..], upperHex))
    else if s[1] == 'u' && |s| >= 6 && HexValue(s[2..6], upperHex).Some? then
      assert |s[2..6]| == 4 && Pow16(4) == 0x10000;
      Prepend(EncodeRune(HexValue(s[2..6], upperHex).value), Decode(s[6..], upperHex))
    else None
  }

  /** What `unescape` returns: the decoded bytes, or the empty string on
      malformed input.  The code as written is `upperHex == false`. */
  function Unescaped(s: Bytes, upperHex: bool): Bytes
  {
    match Decode(s, upperHex)
    case None => []
    case Some(t) => t
  }

  /** `unescape`: one pass over the input, appending decoded bytes to a
      buffer and giving up with "" at the first malformed byte. */
  method Unescape(s: Bytes, upperHex: bool) returns (r: Bytes)
    ensures r == Unescaped(s, upperHex)
  {
    var str: Bytes := [];
    var i := 0;
    assert s[i..] == s;
    PrependNothing(Decode(s, upperHex));
    while i < |s|
      invariant 0 <= i <= |s|
      invariant Decode(s, upperHex) == Prepend(str, Decode(s[i..], upperHex))
    {
      if s[i] < ' ' {
        DecodeFailsAt(s, i, upperHex);
        return [];
      } else if s[i] == '\\' {
        i := i + 1;
        if i >= |s| {
          DecodeFailsAt(s, i - 1, upperHex);
          return [];
        }
        var e := EscapedByte(s[i]);
        if e.Some? {
          DecodeEscapeAt(s, i - 1, upperHex);
          PrependTwice(str, [e.value], Decode(s[i + 1..], upperHex));
          str := str + [e.value];
        } else if s[i] == 'u' {
          if i + 5 > |s| {
            DecodeFailsAt(s, i - 1, upperHex);
            return [];
          }
          i := i + 1;
          var code := ReadHex4(s, i, upperHex);
          if code.None? {
            DecodeFailsAt(s, i - 2, upperHex);
            return [];
          }
          DecodeUnicodeAt(s, i - 2, upperHex);
          PrependTwice(str, EncodeRune(code.value), Decode(s[i + 4..], upperHex));
          str := str + EncodeRune(code.value);
          i := i + 3;
        } else {
          DecodeFailsAt(s, i - 1, upperHex);
          return [];
        }
      } else {
        DecodePlainAt(s, i, upperHex);
        PrependTwice(str, [s[i]], Decode(s[i + 1..], upperHex));
        str := str + [s[i]];
      }
      i := i + 1;
    }
    assert s[i..] == [];
    return str;
  }

  /** Decoding from index `k` on, at an ordinary byte. */
  lemma DecodePlainAt(s: Bytes, k: nat, upperHex: bool)
    requires k < |s| && s[k] >= ' ' && s[k] != '\\'
    ensures Decode(s[k..], upperHex) == Prepend([s[k]], Decode(s[k + 1..], upperHex))
  {
    assert s[k..][0] == s[k] && s[k..][1..] == s[k + 1..];
  }

  /** Decoding from index `k` on, at a one-letter escape. */
  lemma DecodeEscapeAt(s: Bytes, k: nat, upperHex: bool)
    requires k + 1 < |s| && s[k] == '\\' && EscapedByte(s[k + 1]).Some?
    ensures Decode(s[k..], upperHex) == Prepend([EscapedByte(s[k + 1]).value], Decode(s[k + 2..], upperHex))
  {
    assert s[k..][0] == s[k] && s[k..][1] == s[k + 1] && s[k..][2..] == s[k + 2..];
  }

  /** Decoding from index `k` on, at a `\u` escape with four good digits. */
  lemma DecodeUnicodeAt(s: Bytes, k: nat, upperHex: bool)
    requires k + 6 <= |s| && s[k] == '\\' && s[k + 1] == 'u' && HexValue(s[k + 2..k + 6], upperHex).Some?
    ensures HexValue(s[k + 2..k + 6], upperHex).value < 0x10000
    ensures Decode(s[k..], upperHex) == Prepend(EncodeRune(HexValue(s[k + 2..k + 6], upperHex).value), Decode(s[k + 6..], upperHex))
  {
    var t := s[k..];
    assert t[0] == s[k] && t[1] == s[k + 1] && t[2..6] == s[k + 2..k + 6] && t[6..] == s[k + 6..];
    assert EscapedByte('u').None?;
    assert Pow16(4) == 0x10000;
  }

  /** Decoding from index `k` on fails at a control byte, a final `\`, an
      unknown escape letter, or a `\u` without four good digits. */
  lemma DecodeFailsAt(s: Bytes, k: nat, upperHex: bool)
    requires k < |s|
    requires || s[k] < ' '
             || (s[k] == '\\' && k + 1 == |s|)
             || (s[k] == '\\' && EscapedByte(s[k + 1]).None? && s[k + 1] != 'u')
             || (s[k] == '\\' && s[k + 1] == 'u' && (k + 6 > |s| || HexValue(s[k + 2..k + 6], upperHex).None?))
    ensures Decode(s[k..], upperHex) == None
  {
    var t := s[k..];
    assert t[0] == s[k];
    if k + 1 < |s| {
      assert t[1] == s[k + 1];
      if k + 6 <= |s| {
        assert t[2..6] == s[k + 2..k + 6];
      }
    }
  }

  /** The code point loop of `unescape`: four digits, each shifted into
      place by 12, 8, 4 and 0 bits. */
  method ReadHex4(s: Bytes, i: nat, upperHex: bool) returns (code: Option<nat>)
    requires i + 4 <= |s|
    ensures code == HexValue(s[i..i + 4], upperHex)
    ensures code.Some? ==> code.value < 0x10000
  {
    var sum := 0;
    for j := i to i + 4
      invariant HexValue(s[i..j], upperHex).Some?
      invariant sum == HexValue(s[i..j], upperHex).value * Pow16(i + 4 - j)
    {
      var d := HexDigit(s[j], upperHex);
      if d.None? {
        HexStop(s, i, j, upperHex);
        return None;
      }
      HexStep(s, i, j, HexValue(s[i..j], upperHex).value, d.value, upperHex);
      sum := sum + d.value * Pow16(i + 3 - j);
    }
    assert Pow16(0) == 1 && Pow16(4) == 0x10000;
    return Some(sum);
  }

  /** One digit of the code point loop: the value so far moves up a place. */
  lemma HexStep(s: Bytes, i: nat, j: nat, high: nat, low: nat, upperHex: bool)
    requires i <= j < i + 4 <= |s| && HexValue(s[i..j], upperHex) == Some(high) && HexDigit(s[j], upperHex) == Some(low)
    ensures HexValue(s[i..j + 1], upperHex) == Some(high * 16 + low)
    ensures high * Pow16(i + 4 - j) + low * Pow16(i + 3 - j) == (high * 16 + low) * Pow16(i + 3 - j)
  {
    assert s[i..j + 1][..j - i] == s[i..j] && s[i..j + 1][j - i] == s[j];
    var p := Pow16(i + 3 - j);
    assert Pow16(i + 4 - j) == 16 * p;
    ShiftDigit(high, low, p);
  }

  /** A byte that is no digit ends the code point loop with nothing. */
  lemma HexStop(s: Bytes, i: nat, j: nat, upperHex: bool)
    requires i <= j < i + 4 <= |s| && HexValue(s[i..j], upperHex).Some? && HexDigit(s[j], upperHex).None?
    ensures HexValue(s[i..i + 4], upperHex).None?
  {
    assert s[i..j + 1][..j - i] == s[i..j] && s[i..j + 1][j - i] == s[j];
    HexValueNone(s[i..j + 1], s[i..i + 4], upperHex);
  }

  lemma ShiftDigit(high: nat, low: nat, p: nat)
    ensures high * (16 * p) + low * p == (high * 16 + low) * p
  {
  }

  /** A hex prefix that fails makes every longer digit string fail. */
  lemma {:induction false} HexValueNone(prefix: Bytes, d: Bytes, upperHex: bool)
    requires prefix <= d && HexValue(prefix, upperHex).None?
    ensures HexValue(d, upperHex).None?
    decreases |d|
  {
    if |d| > |prefix| {
      assert prefix <= d[..|d| - 1];
      HexValueNone(prefix, d[..|d| - 1], upperHex);
    } else {
      assert d == prefix;
    }
  }

  /** Bytes that need no decoding pass through unchanged. */
  lemma {:induction false} DecodeIdentity(s: Bytes, upperHex: bool)
    requires forall i :: 0 <= i < |s| ==> s[i] != '\\' && s[i] >= ' '
    ensures Decode(s, upperHex) == Some(s)
  {
    if s != [] {
      DecodeIdentity(s[1..], upperHex);
      assert s == [s[0]] + s[1..];
    }
  }

  /** `unescape` is the identity on text with no `\` and no control byte. */
  lemma UnescapeIdentity(s: Bytes, upperHex: bool)
    requires forall i :: 0 <= i < |s| ==> s[i] != '\\' && s[i] >= ' '
    ensures Unescaped(s, upperHex) == s
  {
    DecodeIdentity(s, upperHex);
  }

  /** Decoding works token by token: a prefix that decodes on its own
      contributes its decoding, whatever follows it. */
  lemma {:induction false} DecodeConcat(s: Bytes, t: Bytes, upperHex: bool)
    requires Decode(s, upperHex).Some?
    ensures Decode(s + t, upperHex) == Prepend(Decode(s, upperHex).value, Decode(t, upperHex))
    decreases |s|
  {
    if s == [] {
      assert s + t == t;
      PrependNothing(Decode(t, upperHex));
    } else {
      var st := s + t;
      assert st[0] == s[0];
      if s[0] != '\\' {
        assert st[1..] == s[1..] + t;
        DecodeConcat(s[1..], t, upperHex);
        PrependTwice([s[0]], Decode(s[1..], upperHex).value, Decode(t, upperHex));
      } else {
        assert st[1] == s[1];
        if EscapedByte(s[1]).Some? {
          assert st[2..] == s[2..] + t;
          DecodeConcat(s[2..], t, upperHex);
          PrependTwice([EscapedByte(s[1]).value], Decode(s[2..], upperHex).value, Decode(t, upperHex));
        } else {
          assert st[2..6] == s[2..6] && st[6..] == s[6..] + t;
          DecodeConcat(s[6..], t, upperHex);
          PrependTwice(EncodeRune(HexValue(s[2..6], upperHex).value), Decode(s[6..], upperHex).value, Decode(t, upperHex));
        }
      }
    }
  }

  /** A byte below 0x20 anywhere in the input makes decoding fail: no escape
      can absorb it. */
  lemma {:induction false} ControlByteRejected(s: Bytes, k: nat, upperHex: bool)
    requires k < |s| && s[k] < ' '
    ensures Decode(s, upperHex) == None
    decreases |s|
  {
    if s[0] >= ' ' {
      if s[0] != '\\' {
        ControlByteRejected(s[1..], k - 1, upperHex);
      } else if |s| > 1 {
        if k == 1 {
          assert EscapedByte(s[1]).None?;
        } else if EscapedByte(s[1]).Some? {
          ControlByteRejected(s[2..], k - 2, upperHex);
        } else if s[1] == 'u' && |s| >= 6 && HexValue(s[2..6], upperHex).Some? {
          if k < 6 {
            ControlNotHex(s[2..6], k - 2, upperHex);
          } else {
            ControlByteRejected(s[6..], k - 6, upperHex);
          }
        }
      }
    }
  }

  lemma {:induction false} ControlNotHex(d: Bytes, k: nat, upperHex: bool)
    requires k < |d| && d[k] < ' '
    ensures HexValue(d, upperHex).None?
    decreases |d|
  {
    if k < |d| - 1 {
      assert d[..|d| - 1][k] == d[k];
      ControlNotHex(d[..|d| - 1], k, upperHex);
    }
  }

  /** A lone `\` at the end of otherwise well-formed input is rejected. */
  lemma TrailingBackslashRejected(s: Bytes, upperHex: bool)
    requires Decode(s, upperHex).Some?
    ensures Decode(s + "\\", upperHex) == None
  {
    DecodeConcat(s, "\\", upperHex);
  }

  /** An escape letter outside the RFC 8259 set is rejected. */
  lemma UnknownEscapeRejected(s: Bytes, c: Byte, t: Bytes, upperHex: bool)
    requires Decode(s, upperHex).Some?
    requires EscapedByte(c).None? && c != 'u'
    ensures Decode(s + ['\\', c] + t, upperHex) == None
  {
    assert s + ['\\', c] + t == s + (['\\', c] + t);
    DecodeConcat(s, ['\\', c] + t, upperHex);
  }

  /** `\u` must be followed by four hex digits in the input. */
  lemma BadUnicodeEscapeRejected(s: Bytes, t: Bytes, upperHex: bool)
    requires Decode(s, upperHex).Some?
    requires |t| < 4 || HexValue(t[..4], upperHex).None?
    ensures Decode(s + "\\u" + t, upperHex) == None
  {
    assert s + "\\u" + t == s + ("\\u" + t);
    BadUnicodeFront(t, upperHex);
    DecodeConcat(s, "\\u" + t, upperHex);
  }

  lemma BadUnicodeFront(t: Bytes, upperHex: bool)
    requires |t| < 4 || HexValue(t[..4], upperHex).None?
    ensures Decode("\\u" + t, upperHex) == None
  {
    var w := "\\u" + t;
    assert w[0] == '\\' && w[1] == 'u' && |w| == |t| + 2;
    assert EscapedByte('u').None?;
    if |t| >= 4 {
      assert w[2..6] == t[..4];
    }
  }

  /** Each one-letter escape becomes exactly one byte. */
  lemma SimpleEscapeIsOneByte(s: Bytes, c: Byte, t: Bytes, upperHex: bool)
    requires Decode(s, upperHex).Some? && EscapedByte(c).Some?
    ensures Decode(s + ['\\', c] + t, upperHex)
         == Prepend(Decode(s, upperHex).value + [EscapedByte(c).value], Decode(t, upperHex))
  {
    var w := ['\\', c] + t;
    assert s + ['\\', c] + t == s + w;
    DecodeConcat(s, w, upperHex);
    assert w[0] == '\\' && w[1] == c && w[2..] == t;
    PrependTwice(Decode(s, upperHex).value, [EscapedByte(c).value], Decode(t, upperHex));
  }

  /** Round trip of the rune encoder for every non-surrogate code point
      that four hex digits can write. */
  lemma EncodeRuneRoundTrip(code: nat)
    requires code < 0x10000 && !(0xD800 <= code <= 0xDFFF)
    ensures DecodeRune(EncodeRune(code)) == code
  {
  }

  /** Decoding a one-letter escape at the front. */
  lemma EscapeStep(c: Byte, t: Bytes, upperHex: bool)
    requires EscapedByte(c).Some?
    ensures Decode(['\\', c] + t, upperHex) == Prepend([EscapedByte(c).value], Decode(t, upperHex))
  {
    var w := ['\\', c] + t;
    assert w[0] == '\\' && w[1] == c && w[2..] == t;
  }

  /** Decoding an ordinary byte at the front. */
  lemma PlainStep(c: Byte, t: Bytes, upperHex: bool)
    requires c >= ' ' && c != '\\'
    ensures Decode([c] + t, upperHex) == Prepend([c], Decode(t, upperHex))
  {
    var w := [c] + t;
    assert w[0] == c && w[1..] == t;
  }

  /** The second string of the unit test of `unescape`: three one-letter escapes. */
  lemma UnescapeLetterEscapes()
    ensures Unescaped("\\/\\b\\f", false) == "/" + [8 as char, 12 as char]
  {
    var s2: Bytes := ['\\', 'f'] + [];
    var s1: Bytes := ['\\', 'b'] + s2;
    var s0: Bytes := ['\\', '/'] + s1;
    EscapeStep('f', [], false);
    EscapeStep('b', s2, false);
    EscapeStep('/', s1, false);
    assert s0 == "\\/\\b\\f";
  }

  /** The first: a NUL byte after an escaped backslash gives up. */
  lemma UnescapeControlByte()
    ensures Unescaped("\\\\" + [0 as char], false) == []
  {
    ControlByteRejected("\\\\" + [0 as char], 2, false);
  }

  /** An escaped backslash and quote between plain bytes, as in the test document. */
  lemma UnescapeQuoteEscape()
    ensures Unescaped("B\\\\\\\"R", false) == "B\\\"R"
  {
    var s2: Bytes := ['\\', '"', 'R'];
    var s1: Bytes := ['\\', '\\'] + s2;
    EscapeStep('\\', s2, false);
    QuoteTail();
    PlainStep('B', s1, false);
    assert ['B'] + s1 == "B\\\\\\\"R";
  }

  /** The escaped quote and the plain byte after it. */
  lemma QuoteTail()
    ensures Decode(['\\', '"', 'R'], false) == Some(['"', 'R'])
  {
    PlainStep('R', [], false);
    assert ['R'] + [] == ['R'];
    assert Decode(['R'], false) == Some(['R']);
    EscapeStep('"', ['R'], false);
    assert ['\\', '"'] + ['R'] == ['\\', '"', 'R'];
    assert EscapedByte('"').value == '"';
    assert ['"'] + ['R'] == ['"', 'R'];
  }

  lemma HexValueExamples()
    ensures HexValue("00e9", false) == HexValue("00e9", true) == Some(0xE9)
    ensures HexValue("00C9", false) == None
    ensures HexValue("00C9", true) == Some(0xC9)
  {
    assert "00e9"[..3] == "00e" && "00e"[..2] == "00" && "00"[..1] == "0" && "0"[..0] == [];
    assert "00C9"[..3] == "00C" && "00C"[..2] == "00";
  }

  /** The digits of U+00E9. */
  lemma HexE9()
    ensures HexValue("00e9", false) == Some(0xE9)
  {
    assert "00e9"[..3] == "00e" && "00e"[..2] == "00" && "00"[..1] == "0" && "0"[..0] == [];
  }

  lemma UnicodeEscapeExample()
    ensures Unescaped("caf\\u00e9", false) == "caf" + [0xC3 as char, 0xA9 as char]
  {
    CafE9();
    assert "caf" + "\\u00e9" == "caf\\u00e9";
  }

  lemma CafE9()
    ensures Decode("caf" + "\\u00e9", false) == Some("caf" + [0xC3 as char, 0xA9 as char])
  {
    UnicodeE9();
    CafPlain();
    DecodeConcat("caf", "\\u00e9", false);
  }

  lemma CafPlain()
    ensures Decode("caf", false) == Some("caf")
  {
    DecodeIdentity("caf", false);
  }

  /** `\u00e9` decodes to the two UTF-8 bytes of U+00E9. */
  lemma UnicodeE9()
    ensures Decode("\\u00e9", false) == Some([0xC3 as char, 0xA9 as char])
  {
    HexE9();
    UnicodeStep("00e9", [], false);
    assert EncodeRune(0xE9) == [0xC3 as char, 0xA9 as char];
    assert Decode([], false) == Some([]);
    assert EncodeRune(0xE9) + [] == EncodeRune(0xE9);
    assert ['\\', 'u'] + "00e9" + [] == "\\u00e9";
  }

  /** Decoding a `\u` escape with four good digits at the front. */
  lemma UnicodeStep(h: Bytes, t: Bytes, upperHex: bool)
    requires |h| == 4 && HexValue(h, upperHex).Some?
    ensures HexValue(h, upperHex).value < 0x10000
    ensures Decode(['\\', 'u'] + h + t, upperHex) == Prepend(EncodeRune(HexValue(h, upperHex).value), Decode(t, upperHex))
  {
    var w := ['\\', 'u'] + h + t;
    assert w[0] == '\\' && w[1] == 'u' && w[2..6] == h && w[6..] == t;
    assert EscapedByte('u').None?;
    assert Pow16(4) == 0x10000;
  }

  /** As written, `\u00C9` is rejected although `\u00e9` is accepted. */
  lemma UppercaseHexRejectedAsWritten()
    ensures Decode("\\u00C9", false) == None
    ensures Decode("\\u00e9", false) == Some(EncodeRune(0xE9))
  {
    HexValueExamples();
    assert "\\u00C9"[2..6] == "00C9";
    var w: Bytes := "\\u00e9";
    assert w[2..6] == "00e9" && w[6..] == [];
    assert w[0] == '\\' && w[1] == 'u' && EscapedByte('u').None?;
    assert HexValue(w[2..6], false) == Some(0xE9);
    assert EncodeRune(0xE9) + [] == EncodeRune(0xE9);
    assert Decode(w, false) == Prepend(EncodeRune(0xE9), Decode([], false));
  }

  lemma HexDigitCaseInsensitive(c: Byte)
    ensures HexDigit(c, true) == HexDigit(Lower(c), true) == HexDigit(Lower(c), false)
  {
  }

  /** Corrected: upper- and lower-case hex digits denote the same value, and
      on lower-case digits the correction agrees with the code as written. */
  lemma {:induction false} HexCaseInsensitive(d: Bytes)
    ensures HexValue(d, true) == HexValue(LowerAll(d), true)
    ensures HexValue(LowerAll(d), true) == HexValue(LowerAll(d), false)
  {
    if d != [] {
      var n := |d| - 1;
      var l := LowerAll(d);
      assert l[..n] == LowerAll(d[..n]);
      assert l[n] == Lower(d[n]);
      HexCaseInsensitive(d[..n]);
      HexDigitCaseInsensitive(d[n]);
      assert HexValue(l, true) == AppendDigit(HexValue(l[..n], true), HexDigit(l[n], true), n);
      assert HexValue(l, false) == AppendDigit(HexValue(l[..n], false), HexDigit(l[n], false), n);
    }
  }

  lemma UppercaseHexAccepted()
    ensures Decode("\\u00C9", true) == Some(EncodeRune(0xC9))
  {
    HexValueExamples();
    var w: Bytes := "\\u00C9";
    assert w[2..6] == "00C9" && w[6..] == [];
    assert w[0] == '\\' && w[1] == 'u' && EscapedByte('u').None?;
    assert HexValue(w[2..6], true) == Some(0xC9);
    assert EncodeRune(0xC9) + [] == EncodeRune(0xC9);
    assert Decode(w, true) == Prepend(EncodeRune(0xC9), Decode([], true));
  }

  /** What the corrected `unescape` makes of `\u00C9`: the UTF-8 bytes
      C3 89. */
  lemma UppercaseHexUnescaped()
    ensures Unescaped("\\u00C9", true) == [0xC3 as char, 0x89 as char]
  {
    UppercaseHexAccepted();
    assert EncodeRune(0xC9) == [0xC3 as char, 0x89 as char];
  }
}
