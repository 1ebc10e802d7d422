/**
 The repair of LLM answers that carry raw control characters inside JSON strings,
 against the string grammar of RFC 8259, section 7. The repair works on a scanner
 with three states; what it must preserve is what a decoder reads.
 */
module JsonEscape {
  datatype Scan = Outside | InString | Escaped

  predicate IsControl(c: char) {
    c as int < 0x20
  }

  /** The scanner over one character; a control character in a string counts as any other. */
  function Advance(s: Scan, c: char): Scan {
    match s
    case Outside => if c == '"' then InString else Outside
    case InString => if c == '\\' then Escaped else if c == '"' then Outside else InString
    case Escaped => InString
  }

  /** The scanner from state `s` over the first `k` characters. */
  function ScanFrom(s: Scan, text: string, k: nat): Scan
    requires k <= |text|
  {
    if k == 0 then s else Advance(ScanFrom(s, text, k - 1), text[k - 1])
  }

  function ScanUpTo(text: string, k: nat): Scan
    requires k <= |text|
  {
    ScanFrom(Outside, text, k)
  }

  function HexDigit(n: nat): char
    requires n < 16
  {
    "0123456789abcdef"[n]
  }

  /** `_json_control_character_escape` */
  function EscapeOf(c: char): string
    requires IsControl(c)
  {
    var n := c as int;
    if n == 8 then "\\b"
    else if n == 12 then "\\f"
    else if n == 10 then "\\n"
    else if n == 13 then "\\r"
    else if n == 9 then "\\t"
    else ['\\', 'u', '0', '0', HexDigit(n / 16), HexDigit(n % 16)]
  }

  function Emitted(s: Scan, c: char): string {
    if s != Outside && IsControl(c) then EscapeOf(c) else [c]
  }

  function EscapedUpTo(text: string, k: nat): string
    requires k <= |text|
  {
    if k == 0 then "" else EscapedUpTo(text, k - 1) + Emitted(ScanUpTo(text, k - 1), text[k - 1])
  }

  function Escape(text: string): string {
    EscapedUpTo(text, |text|)
  }

  /** The two flags of the escaping loop, as a scanner state. */
  function ScanOf(inString: bool, escaped: bool): Scan {
    if !inString then Outside else if escaped then Escaped else InString
  }

  method EscapeControlCharactersInsideJsonStrings(text: string) returns (chars: string)
    ensures chars == Escape(text)
  {
    chars := "";
    var inString, escaped := false, false;
    for k := 0 to |text|
      invariant escaped ==> inString
      invariant ScanOf(inString, escaped) == ScanUpTo(text, k)
      invariant chars == EscapedUpTo(text, k)
    {
      var c := text[k];
      if inString && IsControl(c) {
        chars := chars + EscapeOf(c);
        escaped := false;
        continue;
      }
      chars := chars + [c];
      if escaped {
        escaped := false;
        continue;
      }
      if c == '\\' && inString {
        escaped := true;
        continue;
      }
      if c == '"' {
        inString := !inString;
      }
    }
  }

  // ---- The scanner cannot tell the output from the input ----

  lemma {:induction false} ScanConcat(s: Scan, text: string, more: string, k: nat)
    requires k <= |more|
    ensures ScanFrom(s, text + more, |text| + k) == ScanFrom(ScanFrom(s, text, |text|), more, k)
  {
    if k == 0 {
      ScanPrefix(s, text, more, |text|);
    } else {
      ScanConcat(s, text, more, k - 1);
    }
  }

  lemma {:induction false} ScanPrefix(s: Scan, text: string, more: string, j: nat)
    requires j <= |text|
    ensures ScanFrom(s, text + more, j) == ScanFrom(s, text, j)
  {
    if j > 0 {
      ScanPrefix(s, text, more, j - 1);
    }
  }

  /** An emitted piece moves the scanner as its character did. */
  lemma EmittedScansAlike(s: Scan, c: char)
    ensures ScanFrom(s, Emitted(s, c), |Emitted(s, c)|) == Advance(s, c)
  {
    var e := Emitted(s, c);
    assert ScanFrom(s, e, 0) == s;
    assert ScanFrom(s, e, 1) == Advance(s, e[0]);
    if |e| > 1 {
      assert ScanFrom(s, e, 2) == Advance(Advance(s, e[0]), e[1]);
    }
    if |e| > 2 {
      assert e[1] == 'u' && e[2] == '0' && e[3] == '0';
      assert ScanFrom(s, e, 2) == InString;
      assert ScanFrom(s, e, 3) == InString;
      assert ScanFrom(s, e, 4) == InString;
      assert ScanFrom(s, e, 5) == InString;
      assert ScanFrom(s, e, 6) == InString;
    }
  }

  lemma EmittedHasNoRawControl(s: Scan, c: char, i: nat)
    requires i < |Emitted(s, c)| && IsControl(Emitted(s, c)[i])
    ensures ScanFrom(s, Emitted(s, c), i) == Outside
  {
    assert i == 0 || i == 1 || i == 2 || i == 3 || i == 4 || i == 5;
  }

  lemma PieceScansOn(before: string, s: Scan, c: char)
    requires s == ScanUpTo(before, |before|)
    ensures ScanUpTo(before + Emitted(s, c), |before + Emitted(s, c)|) == Advance(s, c)
  {
    ScanConcat(Outside, before, Emitted(s, c), |Emitted(s, c)|);
    EmittedScansAlike(s, c);
  }

  /** At every prefix the output leaves the scanner where the input does. */
  lemma {:induction false} OutputScansLikeInput(text: string, k: nat)
    requires k <= |text|
    ensures ScanUpTo(EscapedUpTo(text, k), |EscapedUpTo(text, k)|) == ScanUpTo(text, k)
  {
    if k > 0 {
      OutputScansLikeInput(text, k - 1);
      PieceScansOn(EscapedUpTo(text, k - 1), ScanUpTo(text, k - 1), text[k - 1]);
    }
  }

  /** Inside the strings of `text` there is no raw control character. */
  ghost predicate NoRawControl(text: string) {
    forall i | 0 <= i < |text| :: IsControl(text[i]) ==> ScanUpTo(text, i) == Outside
  }

  /** A text without raw controls stays so when a piece emitted from its last state is appended. */
  lemma PieceAddsNoRawControl(before: string, s: Scan, c: char)
    requires NoRawControl(before) && s == ScanUpTo(before, |before|)
    ensures NoRawControl(before + Emitted(s, c))
  {
    var out := before + Emitted(s, c);
    forall i | 0 <= i < |out| && IsControl(out[i])
      ensures ScanUpTo(out, i) == Outside
    {
      if i < |before| {
        ScanPrefix(Outside, before, Emitted(s, c), i);
      } else {
        EmittedHasNoRawControl(s, c, i - |before|);
        ScanConcat(Outside, before, Emitted(s, c), i - |before|);
      }
    }
  }

  lemma {:induction false} EscapedPrefixHasNoRawControl(text: string, k: nat)
    requires k <= |text|
    ensures NoRawControl(EscapedUpTo(text, k))
  {
    if k > 0 {
      EscapedPrefixHasNoRawControl(text, k - 1);
      OutputScansLikeInput(text, k - 1);
      PieceAddsNoRawControl(EscapedUpTo(text, k - 1), ScanUpTo(text, k - 1), text[k - 1]);
    }
  }

  /** A text without raw control characters in its strings is left as it is. */
  lemma {:induction false} CleanTextIsUnchanged(text: string, k: nat)
    requires NoRawControl(text) && k <= |text|
    ensures EscapedUpTo(text, k) == text[..k]
  {
    if k > 0 {
      CleanTextIsUnchanged(text, k - 1);
      assert Emitted(ScanUpTo(text, k - 1), text[k - 1]) == [text[k - 1]];
    }
  }

  /** The repaired text is the only kind that repairing leaves alone, and repairing twice is repairing once. */
  lemma EscapeIsIdempotent(text: string)
    ensures NoRawControl(Escape(text))
    ensures Escape(Escape(text)) == Escape(text)
    ensures Escape(text) == text <==> NoRawControl(text)
  {
    EscapedPrefixHasNoRawControl(text, |text|);
    CleanTextIsUnchanged(Escape(text), |Escape(text)|);
    if NoRawControl(text) {
      CleanTextIsUnchanged(text, |text|);
    }
  }

  // ---- What a decoder reads ----

  datatype Error = InvalidControl | InvalidEscape | InvalidHex

  /** What the string layer hands on: characters outside strings, the quotes, and the code of each string character. */
  datatype Symbol = Structural(c: char) | Quote | Content(code: nat)

  datatype Mode = Between | Within | AfterBackslash | Hex(left: nat, value: nat)

  datatype Decoder = Run(mode: Mode, symbols: seq<Symbol>) | Fail(error: Error)

  function HexValue(c: char): (v: int)
    ensures -1 <= v < 16
  {
    if '0' <= c <= '9' then c as int - '0' as int
    else if 'a' <= c <= 'f' then c as int - 'a' as int + 10
    else if 'A' <= c <= 'F' then c as int - 'A' as int + 10
    else -1
  }

  /** The character after a backslash, unless it is the `u` of a code unit: -1 when the grammar has no such escape. */
  function ShortEscape(c: char): (code: int) {
    if c == '"' || c == '\\' || c == '/' then c as int
    else if c == 'b' then 8
    else if c == 'f' then 12
    else if c == 'n' then 10
    else if c == 'r' then 13
    else if c == 't' then 9
    else -1
  }

  /** One character of a decoder; only a strict one refuses raw control characters in strings. */
  function Decode(strict: bool, d: Decoder, c: char): Decoder {
    if d.Fail? then d
    else
      match d.mode
      case Between => if c == '"' then Run(Within, d.symbols + [Quote]) else Run(Between, d.symbols + [Structural(c)])
      case Within =>
        if c == '"' then Run(Between, d.symbols + [Quote])
        else if c == '\\' then Run(AfterBackslash, d.symbols)
        else if strict && IsControl(c) then Fail(InvalidControl)
        else Run(Within, d.symbols + [Content(c as nat)])
      case AfterBackslash =>
        if c == 'u' then Run(Hex(4, 0), d.symbols)
        else if ShortEscape(c) < 0 then Fail(InvalidEscape)
        else Run(Within, d.symbols + [Content(ShortEscape(c))])
      case Hex(left, value) =>
        if HexValue(c) < 0 then Fail(InvalidHex)
        else
          var next := 16 * value + HexValue(c);
          if left <= 1 then Run(Within, d.symbols + [Content(next)]) else Run(Hex(left - 1, next), d.symbols)
  }

  function DecodeFrom(strict: bool, d: Decoder, text: string, k: nat): Decoder
    requires k <= |text|
  {
    if k == 0 then d else Decode(strict, DecodeFrom(strict, d, text, k - 1), text[k - 1])
  }

  const START := Run(Between, [])

  /** The decoder of RFC 8259, which refuses raw control characters in strings. */
  function StrictDecode(text: string): Decoder {
    DecodeFrom(true, START, text, |text|)
  }

  /** The decoder that takes a raw control character in a string for itself (`json.loads` with `strict=False`). */
  function LenientDecode(text: string): Decoder {
    DecodeFrom(false, START, text, |text|)
  }

  predicate InStep(d: Decoder, s: Scan) {
    d.Run? ==> match d.mode
               case Between => s == Outside
               case AfterBackslash => s == Escaped
               case _ => s == InString
  }

  lemma {:induction false} DecodeConcat(strict: bool, d: Decoder, text: string, more: string, k: nat)
    requires k <= |more|
    ensures DecodeFrom(strict, d, text + more, |text| + k)
        == DecodeFrom(strict, DecodeFrom(strict, d, text, |text|), more, k)
  {
    if k == 0 {
      DecodePrefix(strict, d, text, more, |text|);
    } else {
      DecodeConcat(strict, d, text, more, k - 1);
    }
  }

  lemma {:induction false} DecodePrefix(strict: bool, d: Decoder, text: string, more: string, j: nat)
    requires j <= |text|
    ensures DecodeFrom(strict, d, text + more, j) == DecodeFrom(strict, d, text, j)
  {
    if j > 0 {
      DecodePrefix(strict, d, text, more, j - 1);
    }
  }

  lemma {:induction false} FailuresStick(strict: bool, d: Decoder, text: string, k: nat)
    requires k <= |text| && d.Fail?
    ensures DecodeFrom(strict, d, text, k) == d
  {
    if k > 0 {
      FailuresStick(strict, d, text, k - 1);
    }
  }

  /** The escape of a control character decodes to that character. */
  lemma EscapeDecodes(c: char, symbols: seq<Symbol>)
    requires IsControl(c)
    ensures DecodeFrom(true, Run(Within, symbols), EscapeOf(c), |EscapeOf(c)|)
        == Run(Within, symbols + [Content(c as nat)])
  {
    var d, e := Run(Within, symbols), EscapeOf(c);
    assert DecodeFrom(true, d, e, 0) == d;
    assert DecodeFrom(true, d, e, 1) == Run(AfterBackslash, symbols);
    if |e| == 2 {
      assert DecodeFrom(true, d, e, 2) == Decode(true, Run(AfterBackslash, symbols), e[1]);
    } else {
      HexDigitsDecode(c as nat / 16);
      HexDigitsDecode(c as nat % 16);
      assert DecodeFrom(true, d, e, 2) == Run(Hex(4, 0), symbols);
      assert DecodeFrom(true, d, e, 3) == Run(Hex(3, 0), symbols);
      assert DecodeFrom(true, d, e, 4) == Run(Hex(2, 0), symbols);
      assert DecodeFrom(true, d, e, 5) == Run(Hex(1, c as nat / 16), symbols);
      assert DecodeFrom(true, d, e, 6) == Run(Within, symbols + [Content(c as nat)]);
    }
  }

  lemma HexDigitsDecode(n: nat)
    requires n < 16
    ensures HexValue(HexDigit(n)) == n
  {
    assert n == 0 || n == 1 || n == 2 || n == 3 || n == 4 || n == 5 || n == 6 || n == 7
        || n == 8 || n == 9 || n == 10 || n == 11 || n == 12 || n == 13 || n == 14 || n == 15;
  }

  /** A control character stands at `i` right after a backslash that escapes it. */
  predicate ControlAfterBackslash(text: string, i: nat)
    requires i < |text|
  {
    IsControl(text[i]) && ScanUpTo(text, i) == Escaped
  }

  /** One character further, strict decoding of the emitted piece and lenient decoding of the character agree. */
  lemma PieceDecodesAlike(d: Decoder, s: Scan, c: char)
    requires InStep(d, s) && !(IsControl(c) && s == Escaped)
    ensures var piece := Emitted(s, c);
            DecodeFrom(true, d, piece, |piece|) == Decode(false, d, c) && InStep(Decode(false, d, c), Advance(s, c))
  {
    var piece := Emitted(s, c);
    assert DecodeFrom(true, d, piece, 0) == d;
    assert DecodeFrom(true, d, piece, 1) == Decode(true, d, piece[0]);
    if d.Fail? {
      FailuresStick(true, d, piece, |piece|);
    } else if s != Outside && IsControl(c) {
      if d.mode.Within? {
        EscapeDecodes(c, d.symbols);
      } else {
        assert Decode(true, d, piece[0]) == Fail(InvalidHex);
        var rest := piece[1..];
        assert piece == piece[..1] + rest;
        DecodePrefix(true, d, piece[..1], rest, 1);
        DecodeConcat(true, d, piece[..1], rest, |rest|);
        FailuresStick(true, Fail(InvalidHex), rest, |rest|);
      }
    }
  }

  lemma PieceDecodesOn(before: string, d: Decoder, s: Scan, c: char)
    requires InStep(d, s) && !(IsControl(c) && s == Escaped)
    requires DecodeFrom(true, START, before, |before|) == d
    ensures var out := before + Emitted(s, c);
            DecodeFrom(true, START, out, |out|) == Decode(false, d, c) && InStep(Decode(false, d, c), Advance(s, c))
  {
    DecodeConcat(true, START, before, Emitted(s, c), |Emitted(s, c)|);
    PieceDecodesAlike(d, s, c);
  }

  lemma {:induction false} OutputDecodesLikeInput(text: string, k: nat)
    requires k <= |text| && forall i | 0 <= i < k :: !ControlAfterBackslash(text, i)
    ensures var out := EscapedUpTo(text, k);
            DecodeFrom(true, START, out, |out|) == DecodeFrom(false, START, text, k)
    ensures InStep(DecodeFrom(false, START, text, k), ScanUpTo(text, k))
  {
    if k > 0 {
      OutputDecodesLikeInput(text, k - 1);
      assert !ControlAfterBackslash(text, k - 1);
      PieceDecodesOn(EscapedUpTo(text, k - 1), DecodeFrom(false, START, text, k - 1), ScanUpTo(text, k - 1),
          text[k - 1]);
    }
  }

  /** No control character is the target of a backslash, so that none of the repair's escapes is itself escaped. */
  ghost predicate NoEscapedControl(text: string) {
    forall i | 0 <= i < |text| :: !ControlAfterBackslash(text, i)
  }

  /** From the first control character after a backslash on, the lenient decoder has failed. */
  lemma {:induction false} LenientRefusesEscapedControl(text: string, i: nat, k: nat)
    requires i < k <= |text| && ControlAfterBackslash(text, i)
    requires forall j | 0 <= j < i :: !ControlAfterBackslash(text, j)
    ensures DecodeFrom(false, START, text, k).Fail?
  {
    if k == i + 1 {
      OutputDecodesLikeInput(text, i);
      assert ShortEscape(text[i]) < 0;
    } else {
      LenientRefusesEscapedControl(text, i, k - 1);
    }
  }

  lemma FirstEscapedControl(text: string, n: nat) returns (i: nat)
    requires n < |text| && ControlAfterBackslash(text, n)
    ensures i <= n && ControlAfterBackslash(text, i) && forall j | 0 <= j < i :: !ControlAfterBackslash(text, j)
  {
    i := 0;
    while !ControlAfterBackslash(text, i)
      invariant i <= n && forall j | 0 <= j < i :: !ControlAfterBackslash(text, j)
      decreases n - i
    {
      i := i + 1;
    }
  }

  /** Whatever the lenient decoder can read, the strict decoder reads alike after the repair. */
  lemma RepairKeepsReadableText(text: string)
    requires LenientDecode(text).Run?
    ensures StrictDecode(Escape(text)) == LenientDecode(text)
  {
    forall n | 0 <= n < |text| ensures !ControlAfterBackslash(text, n) {
      if ControlAfterBackslash(text, n) {
        var i := FirstEscapedControl(text, n);
        LenientRefusesEscapedControl(text, i, |text|);
      }
    }
    OutputDecodesLikeInput(text, |text|);
  }

  /**
   A repaired text that can be read says what the original says exactly when no backslash
   precedes a control character.
   */
  lemma RepairIsExactWithoutEscapedControls(text: string)
    requires StrictDecode(Escape(text)).Run?
    ensures StrictDecode(Escape(text)) == LenientDecode(text) <==> NoEscapedControl(text)
  {
    if NoEscapedControl(text) {
      OutputDecodesLikeInput(text, |text|);
    } else {
      var n :| 0 <= n < |text| && ControlAfterBackslash(text, n);
      var i := FirstEscapedControl(text, n);
      LenientRefusesEscapedControl(text, i, |text|);
    }
  }

  // ---- The repair in use ----

  /**
   `_parse_json_response`, as far as strings go: the text as it is, or repaired after a
   complaint about a control character.
   */
  function Parsed(text: string): Decoder {
    var d := StrictDecode(text);
    if d == Fail(InvalidControl) then StrictDecode(Escape(text)) else d
  }

  lemma {:induction false} StrictAndLenientPart(text: string, k: nat)
    requires k <= |text|
    ensures var d := DecodeFrom(true, START, text, k);
            d == Fail(InvalidControl) || d == DecodeFrom(false, START, text, k)
  {
    if k > 0 {
      StrictAndLenientPart(text, k - 1);
    }
  }

  /**
   Parsing reads every text the lenient decoder reads as it does; and a text that parsing
   can read says the same to both exactly when no backslash precedes a control character.
   */
  lemma ParsingIsLenient(text: string)
    ensures LenientDecode(text).Run? ==> Parsed(text) == LenientDecode(text)
    ensures NoEscapedControl(text) ==> Parsed(text) == LenientDecode(text)
    ensures Parsed(text).Run? ==> (Parsed(text) == LenientDecode(text) <==> NoEscapedControl(text))
  {
    StrictAndLenientPart(text, |text|);
    if LenientDecode(text).Run? {
      RepairKeepsReadableText(text);
    }
    if NoEscapedControl(text) {
      OutputDecodesLikeInput(text, |text|);
    } else {
      var n :| 0 <= n < |text| && ControlAfterBackslash(text, n);
      var i := FirstEscapedControl(text, n);
      LenientRefusesEscapedControl(text, i, |text|);
    }
  }

  /** A raw line feed, and another one behind a backslash. */
  const MISREAD := ['"', '\n', '\\', '\n', '"']

  lemma MisreadScan()
    ensures Escape(MISREAD) == ['"', '\\', 'n', '\\', '\\', 'n', '"']
  {
    var text := MISREAD;
    assert ScanUpTo(text, 1) == InString && ScanUpTo(text, 2) == InString;
    assert ScanUpTo(text, 3) == Escaped && ScanUpTo(text, 4) == InString;
    assert EscapedUpTo(text, 1) == ['"'];
    assert EscapedUpTo(text, 2) == ['"', '\\', 'n'];
    assert EscapedUpTo(text, 3) == ['"', '\\', 'n', '\\'];
    assert EscapedUpTo(text, 4) == ['"', '\\', 'n', '\\', '\\', 'n'];
  }

  /**
   Such a text: the raw line feed makes parsing repair it, and the line feed behind the
   backslash comes back as a backslash and the letter n.
   */
  lemma EscapedLineFeedIsMisread()
    ensures LenientDecode(MISREAD) == Fail(InvalidEscape)
    ensures Parsed(MISREAD) == Run(Between, [Quote, Content(10), Content('\\' as nat), Content('n' as nat), Quote])
  {
    var text, out := MISREAD, ['"', '\\', 'n', '\\', '\\', 'n', '"'];
    MisreadScan();
    assert DecodeFrom(true, START, text, 1) == Run(Within, [Quote]);
    assert DecodeFrom(true, START, text, 2) == Fail(InvalidControl);
    assert DecodeFrom(true, START, text, 4) == DecodeFrom(true, START, text, 3) == Fail(InvalidControl);
    assert DecodeFrom(false, START, text, 1) == Run(Within, [Quote]);
    assert DecodeFrom(false, START, text, 2) == Run(Within, [Quote, Content(10)]);
    assert DecodeFrom(false, START, text, 3) == Run(AfterBackslash, [Quote, Content(10)]);
    assert DecodeFrom(false, START, text, 4) == Fail(InvalidEscape);
    assert DecodeFrom(true, START, out, 1) == Run(Within, [Quote]);
    assert DecodeFrom(true, START, out, 2) == Run(AfterBackslash, [Quote]);
    assert DecodeFrom(true, START, out, 3) == Run(Within, [Quote, Content(10)]);
    assert DecodeFrom(true, START, out, 4) == Run(AfterBackslash, [Quote, Content(10)]);
    assert DecodeFrom(true, START, out, 5) == Run(Within, [Quote, Content(10), Content('\\' as nat)]);
    assert DecodeFrom(true, START, out, 6)
        == Run(Within, [Quote, Content(10), Content('\\' as nat), Content('n' as nat)]);
  }
}
