/** The literal decoders of the parser (src/parser/mod.rs:40-69, 164-254): module paths of
    source files, JSON string literals (section 7 of RFC 8259) and C character constants
    (section 6.4.4.4 of ISO/IEC 9899:2011). Strings are sequences of Unicode scalar values;
    where the source measures a `&str` in bytes, the model counts UTF-8 bytes. */
module Parser {
  import opened Wrappers

  /** `Result<T, String>` of the decoders, plus the panics of their slicing. */
  datatype Outcome<T> = Ok(value: T) | Err(msg: string) | Panicked(reason: string)

  // ---- UTF-8 lengths -------------------------------------------------------------------

  /** The number of bytes of `c` in UTF-8. */
  function Utf8Len(c: char): (n: nat)
    ensures 1 <= n <= 4
    ensures n == 1 <==> (c as int) < 0x80
  {
    if (c as int) < 0x80 then 1
    else if (c as int) < 0x800 then 2
    else if (c as int) < 0x10000 then 3
    else 4
  }

  /** `str::len`: the number of bytes of `s` in UTF-8. */
  function ByteLen(s: string): (n: nat)
    ensures n >= |s|
    ensures (forall k :: 0 <= k < |s| ==> (s[k] as int) < 0x80) ==> n == |s|
  {
    if s == [] then 0 else Utf8Len(s[0]) + ByteLen(s[1..])
  }

  predicate Ascii(c: char)
  {
    (c as int) < 0x80
  }

  // ---- Hexadecimal numbers -------------------------------------------------------------

  predicate IsHexDigit(c: char)
  {
    '0' <= c <= '9' || 'a' <= c <= 'f' || 'A' <= c <= 'F'
  }

  predicate AllHex(s: string)
  {
    forall k :: 0 <= k < |s| ==> IsHexDigit(s[k])
  }

  function HexDigitValue(c: char): (v: nat)
    requires IsHexDigit(c)
    ensures v < 16
  {
    if '0' <= c <= '9' then c as int - '0' as int
    else if 'a' <= c <= 'f' then c as int - 'a' as int + 10
    else c as int - 'A' as int + 10
  }

  function Pow16(n: nat): (p: nat)
    ensures p >= 1
  {
    if n == 0 then 1 else 16 * Pow16(n - 1)
  }

  /** The number a string of hexadecimal digits stands for, most significant digit first. */
  function HexValue(s: string): (v: nat)
    requires AllHex(s)
    ensures v < Pow16(|s|)
  {
    if s == [] then 0
    else
      var pre := s[..|s| - 1];
      assert AllHex(pre);
      HexValue(pre) * 16 + HexDigitValue(s[|s| - 1])
  }

  /** Which strings a radix-16 reader accepts: `from_str_radix`, which also takes a leading
      '+' sign, or the digits alone, as both standards spell hexadecimal escapes. */
  datatype HexRule = SignAllowed | DigitsOnly

  /** `u8::from_str_radix(s, 16)` / `u16::from_str_radix(s, 16)` under `SignAllowed`, or the
      digits-only reading under `DigitsOnly`. The callers pass at most four bytes, so the
      value always fits and overflow cannot occur. */
  function FromHex(s: string, rule: HexRule): (r: Option<nat>)
    ensures r.Some? <==>
      (rule == SignAllowed && |s| >= 2 && s[0] == '+' && AllHex(s[1..])) || (s != [] && AllHex(s))
    ensures r.Some? && AllHex(s) ==> r.value == HexValue(s)
    ensures r.Some? && !AllHex(s) ==> r.value == HexValue(s[1..])
  {
    if s == [] then None
    else if rule == SignAllowed && s[0] == '+' then
      if |s| >= 2 && AllHex(s[1..]) then Some(HexValue(s[1..])) else None
    else if AllHex(s) then Some(HexValue(s))
    else None
  }

  // ---- JSON strings --------------------------------------------------------------------

  function Min(a: nat, b: nat): nat
  {
    if a < b then a else b
  }

  /** The one-letter escapes of section 7 of RFC 8259 and the character each stands for. */
  function SimpleEscape(e: char): Option<char>
  {
    match e
    case '"' => Some('"')
    case '\\' => Some('\\')
    case '/' => Some('/')
    case 'b' => Some(8 as char)
    case 'f' => Some(12 as char)
    case 'n' => Some('\n')
    case 'r' => Some('\r')
    case 't' => Some('\t')
    case _ => None
  }

  predicate IsSurrogate(n: nat)
  {
    0xD800 <= n <= 0xDFFF
  }

  /** One turn of the decoding loop on the rest `raw` of the input: the character it pushes
      and how many input characters it consumes, or the error it returns. */
  datatype Step = Push(c: char, len: nat) | Fail(msg: string)

  function StepAt(raw: string, rule: HexRule): (st: Step)
    requires raw != []
    ensures st.Push? ==> 1 <= st.len <= |raw|
  {
    if raw[0] != '\\' then Push(raw[0], 1)
    else if |raw| == 1 then Fail("Incomplete escape")
    else if SimpleEscape(raw[1]).Some? then Push(SimpleEscape(raw[1]).value, 2)
    else if raw[1] == 'u' then
      var code := raw[2..Min(|raw|, 6)];
      if ByteLen(code) != 4 then Fail("Incomplete unicode escape")
      else
        match FromHex(code, rule)
        case None => Fail("Bad hex in unicode escape: " + code)
        case Some(n) =>
          assert n < 0x10000 by { assert |code| == 4; assert Pow16(4) == 0x10000; }
          if IsSurrogate(n) then Fail("Invalid unicode escape: " + code)
          else Push(n as char, 2 + |code|)
    else Fail("Invalid escape: \\" + [raw[1]])
  }

  /** `p` in front of a decoded string; an error stays as it is. */
  function Prepend(p: string, r: Outcome<string>): Outcome<string>
  {
    if r.Ok? then Ok(p + r.value) else r
  }

  /** The body of a JSON string literal, decoded from the front; the first error wins. */
  function Decode(raw: string, rule: HexRule): (r: Outcome<string>)
    ensures !r.Panicked?
    decreases |raw|
  {
    if raw == [] then Ok("")
    else
      match StepAt(raw, rule)
      case Fail(m) => Err(m)
      case Push(c, k) => Prepend([c], Decode(raw[k..], rule))
  }

  /** `unescape_json_string`: strips the surrounding quotes by byte offsets, which panics on a
      string shorter than two bytes or one whose first or last character is not a single
      byte, and decodes the rest. */
  function Unescape(s: string, rule: HexRule): (r: Outcome<string>)
    ensures r.Panicked? <==> |s| < 2 || !Ascii(s[0]) || !Ascii(s[|s| - 1])
  {
    if s == [] then Panicked("attempt to subtract with overflow")
    else if !Ascii(s[0]) then Panicked("byte index 1 is not a char boundary")
    else if |s| == 1 then Panicked("slice index starts at 1 but ends at 0")
    else if !Ascii(s[|s| - 1]) then Panicked("byte index is not a char boundary")
    else Decode(s[1..|s| - 1], rule)
  }

  lemma PrependPrepend(p: string, q: string, x: Outcome<string>)
    ensures Prepend(p, Prepend(q, x)) == Prepend(p + q, x)
  {
    if x.Ok? {
      assert p + (q + x.value) == (p + q) + x.value;
    }
  }

  /** The body of the decoding loop at index `i` of `raw`: reads one character, or a
      backslash and its escape. */
  method ReadOne(raw: string, i: nat, rule: HexRule) returns (st: Step)
    requires i < |raw|
    ensures st == StepAt(raw[i..], rule)
  {
    ghost var rest := raw[i..];
    var c := raw[i];
    if c != '\\' {
      return Push(c, 1);
    }
    if i + 1 == |raw| {
      return Fail("Incomplete escape");
    }
    var e := raw[i + 1];
    var simple := SimpleEscape(e);
    if simple.Some? {
      return Push(simple.value, 2);
    } else if e == 'u' {
      var end := Min(|raw|, i + 6);
      var code := raw[i + 2..end];
      assert code == rest[2..Min(|rest|, 6)];
      if ByteLen(code) != 4 {
        return Fail("Incomplete unicode escape");
      }
      var num := FromHex(code, rule);
      if num.None? {
        return Fail("Bad hex in unicode escape: " + code);
      }
      assert |code| == 4 && Pow16(4) == 0x10000;
      if IsSurrogate(num.value) {
        return Fail("Invalid unicode escape: " + code);
      }
      return Push(num.value as char, 2 + |code|);
    } else {
      return Fail("Invalid escape: \\" + [e]);
    }
  }

  /** `unescape_json_string` as a loop over the characters (src/parser/mod.rs:166-211). Under
      `SignAllowed` it reads `\\u` escapes as the source does; under `DigitsOnly` as the
      standard spells them (see the findings on `FromHex`). */
  method UnescapeJsonString(s: string, rule: HexRule) returns (r: Outcome<string>)
    ensures r == Unescape(s, rule)
  {
    if s == [] {
      return Panicked("attempt to subtract with overflow");
    } else if !Ascii(s[0]) {
      return Panicked("byte index 1 is not a char boundary");
    } else if |s| == 1 {
      return Panicked("slice index starts at 1 but ends at 0");
    } else if !Ascii(s[|s| - 1]) {
      return Panicked("byte index is not a char boundary");
    }
    r := DecodeBody(s[1..|s| - 1], rule);
  }

  /** The loop of `unescape_json_string` over the body between the quotes. */
  method DecodeBody(raw: string, rule: HexRule) returns (r: Outcome<string>)
    ensures r == Decode(raw, rule)
  {
    var result := "";
    var i := 0;
    assert raw[i..] == raw;
    assert Prepend(result, Decode(raw, rule)) == Decode(raw, rule) by {
      var d := Decode(raw, rule);
      if d.Ok? {
        assert "" + d.value == d.value;
      }
    }
    while i < |raw|
      invariant 0 <= i <= |raw|
      invariant Decode(raw, rule) == Prepend(result, Decode(raw[i..], rule))
      decreases |raw| - i
    {
      var failed, msg;
      failed, msg, result, i := DecodeTurn(raw, i, result, rule);
      if failed {
        return Err(msg);
      }
    }
    assert result + "" == result;
    return Ok(result);
  }

  /** One turn of the loop of `unescape_json_string`: the error it returns, or the character
      it pushes and the position after what it consumed. */
  method DecodeTurn(raw: string, i: nat, result: string, rule: HexRule) returns (failed: bool, msg: string, result': string, i': nat)
    requires i < |raw|
    ensures failed ==> Prepend(result, Decode(raw[i..], rule)) == Err(msg)
    ensures !failed ==> i < i' <= |raw| && Prepend(result, Decode(raw[i..], rule)) == Prepend(result', Decode(raw[i'..], rule))
  {
    var st := ReadOne(raw, i, rule);
    if st.Fail? {
      return true, st.msg, result, i;
    }
    assert raw[i..][st.len..] == raw[i + st.len..];
    PrependPrepend(result, [st.c], Decode(raw[i + st.len..], rule));
    return false, "", result + [st.c], i + st.len;
  }

  /** Decoding copies a body without backslashes unchanged. */
  lemma {:induction false} DecodePlain(raw: string, rule: HexRule)
    requires forall k :: 0 <= k < |raw| ==> raw[k] != '\\'
    ensures Decode(raw, rule) == Ok(raw)
    decreases |raw|
  {
    if raw != [] {
      DecodePlain(raw[1..], rule);
      assert [raw[0]] + raw[1..] == raw;
    }
  }

  /** A backslash at the very end of an otherwise plain body is an incomplete escape. */
  lemma {:induction false} DecodeTrailingBackslash(raw: string, rule: HexRule)
    requires forall k :: 0 <= k < |raw| ==> raw[k] != '\\'
    ensures Decode(raw + "\\", rule) == Err("Incomplete escape")
    decreases |raw|
  {
    if raw == [] {
      assert raw + "\\" == "\\";
    } else {
      DecodeTrailingBackslash(raw[1..], rule);
      assert (raw + "\\")[1..] == raw[1..] + "\\";
    }
  }

  lemma HexValue4(s: string)
    requires |s| == 4 && AllHex(s)
    ensures HexValue(s) == ((HexDigitValue(s[0]) * 16 + HexDigitValue(s[1])) * 16 + HexDigitValue(s[2])) * 16 + HexDigitValue(s[3])
  {
    assert s[..3][..2][..1][..0] == [];
    assert s[..3][..2][..1] == [s[0]];
    assert s[..3][..2] == [s[0], s[1]];
    assert s[..3] == [s[0], s[1], s[2]];
  }

  lemma HexValue3(s: string)
    requires |s| == 3 && AllHex(s)
    ensures HexValue(s) == (HexDigitValue(s[0]) * 16 + HexDigitValue(s[1])) * 16 + HexDigitValue(s[2])
  {
    assert s[..2][..1][..0] == [];
    assert s[..2][..1] == [s[0]];
    assert s[..2] == [s[0], s[1]];
  }

  /** One "\u" escape of four characters that are not a surrogate's digits, in front of `rest`. */
  lemma DecodeUnicodeEscape(code: string, rest: string, rule: HexRule)
    requires |code| == 4 && AllHex(code)
    ensures var raw := "\\u" + code + rest;
      Decode(raw, rule) ==
        if IsSurrogate(HexValue(code)) then Err("Invalid unicode escape: " + code)
        else Prepend([HexValue(code) as char], Decode(rest, rule))
  {
    var raw := "\\u" + code + rest;
    assert raw[2..Min(|raw|, 6)] == code;
    assert raw[6..] == rest;
    assert Pow16(4) == 0x10000;
  }

  /** The escapes are never joined into surrogate pairs: the pair for U+1F600 is rejected at
      its first half. */
  lemma SurrogatePairRejected(rule: HexRule)
    ensures Decode("\\ud83d\\ude00", rule) == Err("Invalid unicode escape: d83d")
  {
    var code := "d83d";
    HighSurrogateCode();
    PairText();
    DecodeUnicodeEscape(code, "\\ude00", rule);
  }

  lemma PairText()
    ensures "\\u" + "d83d" + "\\ude00" == "\\ud83d\\ude00"
  {
    assert ("\\u" + "d83d" + "\\ude00")[..6] == "\\ud83d";
  }

  /** "d83d" is four hexadecimal digits naming a high surrogate. */
  lemma HighSurrogateCode()
    ensures |"d83d"| == 4 && AllHex("d83d") && IsSurrogate(HexValue("d83d"))
  {
    var code := "d83d";
    assert IsHexDigit(code[0]) && IsHexDigit(code[1]) && IsHexDigit(code[2]) && IsHexDigit(code[3]);
    assert HexDigitValue(code[0]) == 13 && HexDigitValue(code[1]) == 8;
    assert HexDigitValue(code[2]) == 3 && HexDigitValue(code[3]) == 13;
    HexValue4(code);
  }

  function HexDigitChar(d: nat): (c: char)
    requires d < 16
    ensures IsHexDigit(c) && HexDigitValue(c) == d && c != '+'
  {
    ['0', '1', '2', '3', '4', '5', '6', '7', '8', '9', 'a', 'b', 'c', 'd', 'e', 'f'][d]
  }

  /** How section 7 of RFC 8259 writes one character inside a string: quotation mark,
      reverse solidus and the control characters escaped (the short forms where there is
      one, "\u00XX" otherwise), every other character as itself. */
  function EscapeChar(c: char): string
  {
    if c == '"' then "\\\""
    else if c == '\\' then "\\\\"
    else if c == 8 as char then "\\b"
    else if c == 12 as char then "\\f"
    else if c == '\n' then "\\n"
    else if c == '\r' then "\\r"
    else if c == '\t' then "\\t"
    else if (c as int) < 0x20 then "\\u" + ['0', '0', HexDigitChar(c as int / 16), HexDigitChar(c as int % 16)]
    else [c]
  }

  function Escape(t: string): string
  {
    if t == [] then "" else EscapeChar(t[0]) + Escape(t[1..])
  }

  lemma DecodeShortEscape(e: char, rest: string, rule: HexRule)
    requires SimpleEscape(e).Some?
    ensures Decode(['\\', e] + rest, rule) == Prepend([SimpleEscape(e).value], Decode(rest, rule))
  {
    assert (['\\', e] + rest)[2..] == rest;
  }

  lemma DecodeEscapeChar(c: char, rest: string, rule: HexRule)
    ensures Decode(EscapeChar(c) + rest, rule) == Prepend([c], Decode(rest, rule))
  {
    var e := EscapeChar(c);
    if c == '"' || c == '\\' || c == 8 as char || c == 12 as char || c == '\n' || c == '\r' || c == '\t' {
      assert e == ['\\', e[1]] && SimpleEscape(e[1]) == Some(c);
      DecodeShortEscape(e[1], rest, rule);
    } else if (c as int) < 0x20 {
      DecodeControlEscape(c, rest, rule);
    } else {
      assert (e + rest)[1..] == rest;
    }
  }

  /** A control character without a short form is written as `\u00XX`. */
  lemma DecodeControlEscape(c: char, rest: string, rule: HexRule)
    requires (c as int) < 0x20
    ensures Decode("\\u" + ['0', '0', HexDigitChar(c as int / 16), HexDigitChar(c as int % 16)] + rest, rule)
            == Prepend([c], Decode(rest, rule))
  {
    var code := ['0', '0', HexDigitChar(c as int / 16), HexDigitChar(c as int % 16)];
    ControlCode(c);
    DecodeUnicodeEscape(code, rest, rule);
  }

  lemma ControlCode(c: char)
    requires (c as int) < 0x20
    ensures var code := ['0', '0', HexDigitChar(c as int / 16), HexDigitChar(c as int % 16)];
      AllHex(code) && HexValue(code) == c as int
  {
    var code := ['0', '0', HexDigitChar(c as int / 16), HexDigitChar(c as int % 16)];
    assert AllHex(code);
    HexValue4(code);
  }

  /** Decoding undoes the standard's escaping: every string survives the round trip. */
  lemma {:induction false} DecodeEscape(t: string, rule: HexRule)
    ensures Decode(Escape(t), rule) == Ok(t)
    decreases |t|
  {
    if t != [] {
      DecodeEscape(t[1..], rule);
      DecodeEscapeChar(t[0], Escape(t[1..]), rule);
      assert [t[0]] + t[1..] == t;
    }
  }

  /** The escapes section 7 of RFC 8259 allows, "\u" followed by exactly four hexadecimal
      digits among them, except that a "\u" escape must not name a surrogate code point
      (the decoder does not join surrogate pairs). Characters outside escapes are not
      constrained: the decoder copies them whatever they are. */
  predicate EscapesOk(raw: string)
    decreases |raw|
  {
    if raw == [] then true
    else if raw[0] != '\\' then EscapesOk(raw[1..])
    else if |raw| >= 2 && SimpleEscape(raw[1]).Some? then EscapesOk(raw[2..])
    else |raw| >= 6 && raw[1] == 'u' && AllHex(raw[2..6]) && !IsSurrogate(HexValue(raw[2..6])) && EscapesOk(raw[6..])
  }

  /** The digits-only decoder accepts a body exactly when its escapes are the standard's. */
  lemma {:induction false} DecodeAcceptsStandard(raw: string)
    ensures Decode(raw, DigitsOnly).Ok? <==> EscapesOk(raw)
    decreases |raw|
  {
    if raw != [] {
      var st := StepAt(raw, DigitsOnly);
      if raw[0] != '\\' {
        DecodeAcceptsStandard(raw[1..]);
      } else if |raw| >= 2 && SimpleEscape(raw[1]).Some? {
        DecodeAcceptsStandard(raw[2..]);
      } else if |raw| >= 2 && raw[1] == 'u' {
        var code := raw[2..Min(|raw|, 6)];
        if |raw| >= 6 && AllHex(raw[2..6]) {
          assert code == raw[2..6] && ByteLen(code) == 4;
          DecodeAcceptsStandard(raw[6..]);
        }
      }
    }
  }

  /** As written, `from_str_radix` takes a '+' sign, so "\u+041" decodes to "A" although the
      standard requires four hexadecimal digits; the digits-only reading rejects it. */
  lemma UnicodeEscapeSignAccepted()
    ensures Decode("\\u+041", SignAllowed) == Ok("A")
    ensures !EscapesOk("\\u+041")
    ensures Decode("\\u+041", DigitsOnly) == Err("Bad hex in unicode escape: +041")
  {
    var raw := "\\u+041";
    var code := raw[2..6];
    assert code == "+041";
    var digits := code[1..];
    assert digits == "041";
    assert IsHexDigit(digits[0]) && IsHexDigit(digits[1]) && IsHexDigit(digits[2]);
    assert AllHex(digits);
    assert HexDigitValue(digits[0]) == 0 && HexDigitValue(digits[1]) == 4 && HexDigitValue(digits[2]) == 1;
    HexValue3(digits);
    assert HexValue(digits) == 0x41;
    assert !IsHexDigit(code[0]);
    assert FromHex(code, SignAllowed) == Some(0x41);
    assert FromHex(code, DigitsOnly) == None;
    assert ByteLen(code) == 4;
    assert raw[2..Min(|raw|, 6)] == code;
    assert StepAt(raw, SignAllowed) == Push('A', 6);
    assert raw[6..] == "";
    assert Decode(raw[6..], SignAllowed) == Ok("");
    assert Decode(raw, SignAllowed) == Prepend(['A'], Ok(""));
    assert ['A'] + "" == "A";
  }

  // ---- C character constants -----------------------------------------------------------

  /** The single-character escapes `parse_char_literal` knows, with the byte each stands for. */
  function CSimpleEscape(e: char): (r: Option<nat>)
    ensures r.Some? ==> r.value < 128
    ensures r.Some? ==> e != 'x'
  {
    match e
    case 'a' => Some(0x07)
    case 'b' => Some(0x08)
    case 'f' => Some(0x0C)
    case 'n' => Some(0x0A)
    case 'r' => Some(0x0D)
    case 't' => Some(0x09)
    case 'v' => Some(0x0B)
    case '\\' => Some('\\' as nat)
    case '\'' => Some('\'' as nat)
    case '"' => Some('"' as nat)
    case '?' => Some('?' as nat)
    case _ => None
  }

  lemma ByteLenShort(s: string)
    requires s != []
    ensures ByteLen(s) == 1 ==> |s| == 1 && Ascii(s[0])
    ensures |s| == 1 && Ascii(s[0]) ==> ByteLen(s) == 1
  {
    assert ByteLen(s) == Utf8Len(s[0]) + ByteLen(s[1..]);
  }

  /** `parse_char_literal`: the byte a quoted character constant stands for. The quotes are
      stripped by byte offsets, so a lone quote panics; the body is one byte, a simple escape
      or a hexadecimal escape of one or two bytes; the hexadecimal digits are read under
      `rule`. */
  function ParseCharLiteral(s: string, rule: HexRule): (r: Outcome<nat>)
    ensures r.Ok? ==> r.value < 256
    ensures r.Panicked? <==> s == "'"
  {
    if s == [] || s[0] != '\'' || s[|s| - 1] != '\'' then Err("invalid char literal")
    else if |s| == 1 then Panicked("slice index starts at 1 but ends at 0")
    else
      var inner := s[1..|s| - 1];
      if inner != [] && ByteLen(inner) == 1 then
        ByteLenShort(inner);
        Ok(inner[0] as nat)
      else if ByteLen(inner) >= 2 && inner[0] == '\\' then
        ByteLenShort(inner);
        match CSimpleEscape(inner[1])
        case Some(b) => Ok(b)
        case None =>
          if inner[1] == 'x' then
            var hex := inner[2..];
            if hex == [] || ByteLen(hex) > 2 then Err("invalid hex escape")
            else
              match FromHex(hex, rule)
              case Some(v) =>
                assert Pow16(1) == 16 && Pow16(2) == 256;
                Ok(v)
              case None => Err("invalid hex digits")
          else Err("unknown escape")
      else Err("invalid char literal format")
  }

  /** How a C program writes byte `b` as a character constant: printable ASCII as itself,
      the quote and the backslash by their simple escapes, every other byte as `\xHH`. */
  function CharLiteralOf(b: nat): (s: string)
    requires b < 256
  {
    if b == '\'' as nat || b == '\\' as nat then ['\'', '\\', b as char, '\'']
    else if 0x20 <= b < 0x7F then ['\'', b as char, '\'']
    else ['\'', '\\', 'x', HexDigitChar(b / 16), HexDigitChar(b % 16), '\'']
  }

  lemma ParseQuotedEscape(c: char, rule: HexRule)
    requires CSimpleEscape(c).Some?
    ensures ParseCharLiteral(['\'', '\\', c, '\''], rule) == Ok(CSimpleEscape(c).value)
  {
    var s := ['\'', '\\', c, '\''];
    assert s[1..|s| - 1] == ['\\', c];
    assert ByteLen(['\\', c]) >= 2;
  }

  lemma ParseQuotedHex(h: char, l: char, rule: HexRule)
    requires IsHexDigit(h) && IsHexDigit(l) && h != '+'
    ensures ParseCharLiteral(['\'', '\\', 'x', h, l, '\''], rule) == Ok(HexDigitValue(h) * 16 + HexDigitValue(l))
  {
    var s := ['\'', '\\', 'x', h, l, '\''];
    var inner := s[1..|s| - 1];
    var hex := [h, l];
    assert inner == ['\\', 'x', h, l];
    assert inner[2..] == hex;
    assert ByteLen(inner) >= 4;
    assert ByteLen(hex) == 2 by {
      assert hex[1..] == [l] && hex[1..][1..] == [];
    }
    assert hex[..1] == [h] && hex[..1][..0] == [];
    assert AllHex(hex);
    assert HexValue(hex) == HexDigitValue(h) * 16 + HexDigitValue(l);
    assert FromHex(hex, rule) == Some(HexValue(hex));
    assert CSimpleEscape(inner[1]) == None;
  }

  lemma ParseQuotedPrintable(c: char, rule: HexRule)
    requires 0x20 <= c as int < 0x7F && c != '\\'
    ensures ParseCharLiteral(['\'', c, '\''], rule) == Ok(c as nat)
  {
    var s := ['\'', c, '\''];
    assert s[1..|s| - 1] == [c];
    ByteLenShort([c]);
  }

  /** Reading back a written constant gives the byte, whichever hexadecimal rule is used. */
  lemma ParseCharLiteralOf(b: nat, rule: HexRule)
    requires b < 256
    ensures ParseCharLiteral(CharLiteralOf(b), rule) == Ok(b)
  {
    if b == '\'' as nat || b == '\\' as nat {
      ParseQuotedEscape(b as char, rule);
    } else if 0x20 <= b < 0x7F {
      ParseQuotedPrintable(b as char, rule);
    } else {
      ParseQuotedByte(b, rule);
    }
  }

  lemma ParseQuotedByte(b: nat, rule: HexRule)
    requires b < 256
    ensures ParseCharLiteral(['\'', '\\', 'x', HexDigitChar(b / 16), HexDigitChar(b % 16), '\''], rule) == Ok(b)
  {
    ParseQuotedHex(HexDigitChar(b / 16), HexDigitChar(b % 16), rule);
  }

  /** Under the digits-only reading, a `\x` constant is exactly a one- or two-byte string of
      hexadecimal digits, and stands for their value. */
  lemma ParseHexEscape(hex: string)
    ensures var r := ParseCharLiteral("'\\x" + hex + "'", DigitsOnly);
      r == if hex == [] || ByteLen(hex) > 2 then Err("invalid hex escape")
        else if AllHex(hex) then Ok(HexValue(hex))
        else Err("invalid hex digits")
  {
    var s := "'\\x" + hex + "'";
    var inner := s[1..|s| - 1];
    assert inner == "\\x" + hex && inner[2..] == hex;
    assert ByteLen(inner) == 2 + ByteLen(hex) by {
      assert inner[1..] == "x" + hex && inner[1..][1..] == hex;
    }
  }

  /** `from_str_radix` lets a '+' through, so a signed hexadecimal escape is accepted. */
  lemma HexEscapeSignAccepted()
    ensures ParseCharLiteral("'\\x+f'", SignAllowed) == Ok(15)
    ensures ParseCharLiteral("'\\x+f'", DigitsOnly) == Err("invalid hex digits")
  {
    var s := "'\\x+f'";
    var inner := s[1..|s| - 1];
    assert inner == "\\x+f";
    var hex := inner[2..];
    assert hex == "+f" && hex[1..] == "f";
    assert ByteLen(hex) == 2;
    assert ByteLen(inner) == 4;
    assert !IsHexDigit(hex[0]) && IsHexDigit(hex[1]);
    assert AllHex(hex[1..]) && !AllHex(hex);
    assert hex[1..][..0] == [];
    assert HexValue(hex[1..]) == 15;
    assert FromHex(hex, SignAllowed) == Some(15);
    assert FromHex(hex, DigitsOnly) == None;
  }

  // ---- Module paths of source files ----------------------------------------------------

  predicate HasSuffix(s: string, suffix: string)
  {
    |s| >= |suffix| && s[|s| - |suffix|..] == suffix
  }

  /** `get_module_path` on the components of a file path: `mod.mst` names its directory,
      `x.mst` names module `x` inside it, and any other file name is an error. */
  function ModulePathOf(path: seq<string>): (r: Outcome<seq<string>>)
    ensures !r.Panicked?
    ensures r.Ok? ==> path != [] && |r.value| >= |path| - 1 && r.value[..|path| - 1] == path[..|path| - 1]
    ensures r.Ok? ==> |r.value| == |path| || (|r.value| == |path| - 1 && path[|path| - 1] == "mod.mst")
  {
    if path == [] then Err("empty filepath")
    else
      var file := path[|path| - 1];
      var dirs := path[..|path| - 1];
      if file == "mod.mst" then Ok(dirs)
      else if HasSuffix(file, ".mst") then Ok(dirs + [file[..|file| - 4]])
      else Err("invalid file extension, should be skipped")
  }

  /** The file a module is written in, as `x.mst` next to its parent's files. */
  function ModuleFile(m: seq<string>): (path: seq<string>)
    requires m != []
  {
    m[..|m| - 1] + [m[|m| - 1] + ".mst"]
  }

  /** The file a module is written in, as `x/mod.mst`. */
  function ModuleDirFile(m: seq<string>): (path: seq<string>)
  {
    m + ["mod.mst"]
  }

  /** Both places a module may be written in give back its path (for `x.mst`, unless the
      module is itself called `mod`), so a project holding both is rejected as defining the
      module twice. */
  lemma ModulePathOfFiles(m: seq<string>)
    requires m != []
    ensures ModulePathOf(ModuleDirFile(m)) == Ok(m)
    ensures ModulePathOf(ModuleFile(m)) == Ok(m) <==> m[|m| - 1] != "mod"
  {
    var d := ModuleDirFile(m);
    assert d[..|d| - 1] == m;
    var f := ModuleFile(m);
    var name := m[|m| - 1];
    var file := name + ".mst";
    assert f[..|f| - 1] == m[..|m| - 1] && f[|f| - 1] == file;
    assert HasSuffix(file, ".mst") && file[..|file| - 4] == name;
    assert m[..|m| - 1] + [name] == m;
    if name == "mod" {
      assert file == "mod.mst";
      assert |m[..|m| - 1]| != |m|;
    } else {
      assert file != "mod.mst";
    }
  }

  /** `get_module_path` as the source writes it: the components are read last to first, the
      first of them (the file name) gives the module's own name, the others are appended and
      the whole is reversed back. */
  method GetModulePath(path: seq<string>) returns (r: Outcome<seq<string>>)
    ensures r == ModulePathOf(path)
  {
    var rev: seq<string> := [];
    var i := |path|;
    while i > 0
      invariant 0 <= i <= |path| && |rev| == |path| - i
      invariant forall k :: 0 <= k < |rev| ==> rev[k] == path[|path| - 1 - k]
    {
      i := i - 1;
      rev := rev + [path[i]];
    }
    if rev == [] {
      return Err("empty filepath");
    }
    var modulePath: seq<string> := [];
    var file := rev[0];
    if file != "mod.mst" {
      if !HasSuffix(file, ".mst") {
        return Err("invalid file extension, should be skipped");
      }
      modulePath := [file[..|file| - 4]];
    }
    var skip := |modulePath|;
    var j := 1;
    while j < |rev|
      invariant 1 <= j <= |rev| && |modulePath| == skip + j - 1
      invariant skip == 0 || modulePath[0] == file[..|file| - 4]
      invariant forall k :: skip <= k < |modulePath| ==> modulePath[k] == rev[k - skip + 1]
    {
      modulePath := modulePath + [rev[j]];
      j := j + 1;
    }
    var out: seq<string> := [];
    var n := |modulePath|;
    while |out| < n
      invariant |out| <= n
      invariant forall k :: 0 <= k < |out| ==> out[k] == modulePath[n - 1 - k]
    {
      out := out + [modulePath[n - 1 - |out|]];
    }
    r := Ok(out);
    var dirs := path[..|path| - 1];
    if skip == 0 {
      assert out == dirs;
    } else {
      assert out == dirs + [file[..|file| - 4]];
    }
  }
}
