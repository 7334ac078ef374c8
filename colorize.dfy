/**
 * The terminal styling helpers of 03-tty-colorize: SGR ("Select Graphic
 * Rendition", section 8.3.117 of ECMA-48) escape sequences wrapped around a
 * text, with the direct-colour parameters `38;2;r;g;b` and `48;2;r;g;b`
 * taken from the three low bytes of a `u32`.
 */
module Colorize {
  import opened Wrappers
  import opened Text

  /** `AnsiEscapeCodes` and its discriminants. */
  datatype AnsiEscapeCode = Reset | Bold | Faint | Italic | Underline | SlowBlink | RapidBlink | Strike

  function CodeOf(code: AnsiEscapeCode): nat
  {
    match code
    case Reset => 0
    case Bold => 1
    case Faint => 2
    case Italic => 3
    case Underline => 4
    case SlowBlink => 5
    case RapidBlink => 6
    case Strike => 9
  }

  const Esc: char := '\U{1B}'

  /** The control sequence `ESC [ params m`. */
  function Sgr(params: string): string
  {
    [Esc, '['] + params + "m"
  }

  /** The `\x1b[0m` that closes every styled string. */
  const ResetSequence: string := Sgr("0")

  /**
   * `format!("\x1b[{}m{}\x1b[0m", params, text)`: the text verbatim right
   * after the opening sequence, and the reset sequence at the very end.
   */
  function Styled(params: string, text: string): (s: string)
    ensures |s| == |Sgr(params)| + |text| + 4
    ensures s[|Sgr(params)|..|Sgr(params)| + |text|] == text
    ensures s[|s| - 4..] == [Esc, '[', '0', 'm']
  {
    Sgr(params) + text + ResetSequence
  }

  // ---------------------------------------------------------------------
  // The styling functions
  // ---------------------------------------------------------------------

  /** `String::bold`: asks for attribute 1 and keeps the text. */
  function Embolden(text: string): (s: string)
    ensures Decode(s) == Some((Attribute(1), text))
  {
    DecodeAttribute(CodeOf(Bold), text);
    Styled(Decimal(CodeOf(Bold)), text)
  }

  /** `String::italic`: asks for attribute 3 and keeps the text. */
  function Italicize(text: string): (s: string)
    ensures Decode(s) == Some((Attribute(3), text))
  {
    DecodeAttribute(CodeOf(Italic), text);
    Styled(Decimal(CodeOf(Italic)), text)
  }

  /**
   * `String::blink`: asks for attribute 6 (rapid blink) when `isFast`, for
   * 5 (slow blink) otherwise, and keeps the text.
   */
  function Blink(text: string, isFast: bool): (s: string)
    ensures Decode(s) == Some((Attribute(if isFast then 6 else 5), text))
  {
    var code := if isFast then RapidBlink else SlowBlink;
    DecodeAttribute(CodeOf(code), text);
    Styled(Decimal(CodeOf(code)), text)
  }

  /**
   * `extract`: the bytes of bits 16..23, 8..15 and 0..7. The `as u8` casts
   * keep the low byte, which is what the `& 0xFF` here stands for.
   */
  function Extract(rgb: bv32): (r: (bv8, bv8, bv8))
    ensures r.0 as bv32 == rgb / 0x1_0000 % 0x100
    ensures r.1 as bv32 == rgb / 0x100 % 0x100
    ensures r.2 as bv32 == rgb % 0x100
  {
    var red := ((rgb >> 16) & 0xFF) as bv8;
    var green := (((rgb & 0xFF00) >> 8) & 0xFF) as bv8;
    var blue := (rgb & 0xFF) as bv8;
    (red, green, blue)
  }

  /** Parameters separated by `;`. */
  function Join(parts: seq<string>): string
    requires |parts| >= 1
    decreases |parts|
  {
    if |parts| == 1 then parts[0] else parts[0] + ";" + Join(parts[1..])
  }

  /** The parameters `selector;2;r;g;b` with the bytes in decimal. */
  function DirectParams(selector: string, r: nat, g: nat, b: nat): string
  {
    Join([selector, "2", Decimal(r), Decimal(g), Decimal(b)])
  }

  /** The colour parameters for the bytes of `rgb`. */
  function ColorParams(selector: string, rgb: bv32): string
  {
    var (r, g, b) := Extract(rgb);
    DirectParams(selector, r as nat, g as nat, b as nat)
  }

  /** `String::foreground`: selects parameter 38 with the three bytes of the colour and keeps the text. */
  function Foreground(text: string, rgb: bv32): (s: string)
    ensures var (r, g, b) := Extract(rgb);
      Decode(s) == Some((DirectColor(true, r as nat, g as nat, b as nat), text))
  {
    var (r, g, b) := Extract(rgb);
    DecodeDirect("38", r as nat, g as nat, b as nat, text);
    Styled(ColorParams("38", rgb), text)
  }

  /** `String::background`: selects parameter 48 with the three bytes of the colour and keeps the text. */
  function Background(text: string, rgb: bv32): (s: string)
    ensures var (r, g, b) := Extract(rgb);
      Decode(s) == Some((DirectColor(false, r as nat, g as nat, b as nat), text))
  {
    var (r, g, b) := Extract(rgb);
    DecodeDirect("48", r as nat, g as nat, b as nat, text);
    Styled(ColorParams("48", rgb), text)
  }

  // ---------------------------------------------------------------------
  // Extracting bytes
  // ---------------------------------------------------------------------

  /** The 24-bit colour with the given red, green and blue bytes. */
  function Pack(r: bv8, g: bv8, b: bv8): bv32
  {
    r as bv32 * 0x1_0000 + g as bv32 * 0x100 + b as bv32
  }

  /** A colour below 2^24 is its three bytes put back together. */
  lemma ExtractPack(rgb: bv32)
    requires rgb < 0x100_0000
    ensures var (r, g, b) := Extract(rgb); Pack(r, g, b) == rgb
  {
  }

  /** Extracting from three packed bytes gives the bytes back. */
  lemma PackExtract(r: bv8, g: bv8, b: bv8)
    ensures Extract(Pack(r, g, b)) == (r, g, b)
  {
  }

  /** The top byte of the `u32` is ignored. */
  lemma HighByteIgnored(rgb: bv32)
    ensures Extract(rgb) == Extract(rgb % 0x100_0000)
  {
  }

  // ---------------------------------------------------------------------
  // Reading a styled string back
  // ---------------------------------------------------------------------

  /** The first position at or after `i` holding `c`, or `|s|`. */
  function Find(s: string, c: char, i: nat): (j: nat)
    requires i <= |s|
    ensures i <= j <= |s|
    ensures j < |s| ==> s[j] == c
    decreases |s| - i
  {
    if i == |s| || s[i] == c then i else Find(s, c, i + 1)
  }

  /** `Find` stops at the first `c`: none before `j`, one at `j`. */
  lemma {:induction false} FindFirst(s: string, c: char, i: nat, j: nat)
    requires i <= j < |s| && s[j] == c
    requires forall k :: i <= k < j ==> s[k] != c
    ensures Find(s, c, i) == j
    decreases j - i
  {
    if i < j {
      FindFirst(s, c, i + 1, j);
    }
  }

  /**
   * Splits `ESC [ params m text ESC [0m` into `params` and `text`; the
   * parameters end at the first `m`.
   */
  function Unstyle(s: string): Option<(string, string)>
  {
    if |s| < 2 || s[0] != Esc || s[1] != '[' then None
    else
      var m := Find(s, 'm', 2);
      if m == |s| || |s| - (m + 1) < |ResetSequence| || s[|s| - |ResetSequence|..] != ResetSequence then None
      else Some((s[2..m], s[m + 1..|s| - |ResetSequence|]))
  }

  /** The fields of a parameter string separated by `;`. */
  function Fields(s: string): (r: seq<string>)
    ensures |r| >= 1
    decreases |s|
  {
    var j := Find(s, ';', 0);
    if j == |s| then [s] else [s[..j]] + Fields(s[j + 1..])
  }

  /** What a styled string asks the terminal for. */
  datatype Style =
    | Attribute(code: nat)
    | DirectColor(foreground: bool, red: nat, green: nat, blue: nat)

  /** A decimal parameter, as a terminal reads it. */
  function Param(field: string): Option<nat>
  {
    if IsCanonical(field) then Some(ValueOf(field)) else None
  }

  /** Reads the style and the text of a string produced by the functions above. */
  function Decode(s: string): Option<(Style, string)>
  {
    match Unstyle(s)
    case None => None
    case Some((params, text)) =>
      var fields := Fields(params);
      if |fields| == 1 then
        match Param(fields[0])
        case Some(code) => Some((Attribute(code), text))
        case None => None
      else if |fields| == 5 && (fields[0] == "38" || fields[0] == "48") && fields[1] == "2" then
        match (Param(fields[2]), Param(fields[3]), Param(fields[4]))
        case (Some(r), Some(g), Some(b)) => Some((DirectColor(fields[0] == "38", r, g, b), text))
        case _ => None
      else None
  }

  /** `s` does not contain `c`. */
  predicate Free(s: string, c: char)
  {
    c !in s
  }

  lemma {:induction false} UnstyleStyled(params: string, text: string)
    requires Free(params, 'm')
    ensures Unstyle(Styled(params, text)) == Some((params, text))
  {
    var s := Styled(params, text);
    var m := 2 + |params|;
    assert s == [Esc, '['] + params + ['m'] + text + ResetSequence;
    assert s[m] == 'm';
    assert forall k :: 2 <= k < m ==> s[k] == params[k - 2];
    FindFirst(s, 'm', 2, m);
    assert s[2..m] == params;
    assert s[m + 1..|s| - |ResetSequence|] == text;
    assert s[|s| - |ResetSequence|..] == ResetSequence;
  }

  lemma FieldsSingle(s: string)
    requires Free(s, ';')
    ensures Fields(s) == [s]
  {
    assert Find(s, ';', 0) == |s|;
  }

  lemma FieldsCons(x: string, rest: string)
    requires Free(x, ';')
    ensures Fields(x + ";" + rest) == [x] + Fields(rest)
  {
    var s := x + ";" + rest;
    assert s[|x|] == ';';
    assert forall k :: 0 <= k < |x| ==> s[k] == x[k];
    FindFirst(s, ';', 0, |x|);
    assert s[..|x|] == x;
    assert s[|x| + 1..] == rest;
  }

  lemma DigitsFree(s: string, c: char)
    requires AllDigits(s) && !IsDigit(c)
    ensures Free(s, c)
  {
  }

  lemma ParamOfDecimal(n: nat)
    ensures Param(Decimal(n)) == Some(n)
  {
    ValueOfDecimal(n);
  }

  /** Reading back an attribute-styled string gives the attribute code and the text. */
  lemma DecodeAttribute(code: nat, text: string)
    ensures Decode(Styled(Decimal(code), text)) == Some((Attribute(code), text))
  {
    DigitsFree(Decimal(code), 'm');
    DigitsFree(Decimal(code), ';');
    UnstyleStyled(Decimal(code), text);
    FieldsSingle(Decimal(code));
    ParamOfDecimal(code);
  }

  /** Joining adds no character but `;`. */
  lemma {:induction false} JoinFree(parts: seq<string>, c: char)
    requires |parts| >= 1 && c != ';'
    requires forall k :: 0 <= k < |parts| ==> Free(parts[k], c)
    ensures Free(Join(parts), c)
    decreases |parts|
  {
    if |parts| > 1 {
      JoinFree(parts[1..], c);
    }
  }

  /** Splitting joined parameters gives them back, as long as none holds a `;`. */
  lemma {:induction false} FieldsJoin(parts: seq<string>)
    requires |parts| >= 1
    requires forall k :: 0 <= k < |parts| ==> Free(parts[k], ';')
    ensures Fields(Join(parts)) == parts
    decreases |parts|
  {
    if |parts| == 1 {
      FieldsSingle(parts[0]);
    } else {
      FieldsJoin(parts[1..]);
      FieldsCons(parts[0], Join(parts[1..]));
      assert [parts[0]] + parts[1..] == parts;
    }
  }

  /** The direct-colour parameters hold no `m` and split into their five fields. */
  lemma DirectFields(selector: string, r: nat, g: nat, b: nat)
    requires Free(selector, ';') && Free(selector, 'm')
    ensures Free(DirectParams(selector, r, g, b), 'm')
    ensures Fields(DirectParams(selector, r, g, b)) == [selector, "2", Decimal(r), Decimal(g), Decimal(b)]
  {
    var parts := [selector, "2", Decimal(r), Decimal(g), Decimal(b)];
    DigitsFree(Decimal(r), 'm');
    DigitsFree(Decimal(g), 'm');
    DigitsFree(Decimal(b), 'm');
    JoinFree(parts, 'm');
    DigitsFree(Decimal(r), ';');
    DigitsFree(Decimal(g), ';');
    DigitsFree(Decimal(b), ';');
    FieldsJoin(parts);
  }

  /** Reading back a direct-colour string gives the bytes and the text. */
  lemma DecodeDirect(selector: string, r: nat, g: nat, b: nat, text: string)
    requires selector == "38" || selector == "48"
    ensures Decode(Styled(DirectParams(selector, r, g, b), text))
      == Some((DirectColor(selector == "38", r, g, b), text))
  {
    var params := DirectParams(selector, r, g, b);
    DirectFields(selector, r, g, b);
    UnstyleStyled(params, text);
    var fields := Fields(params);
    ParamOfDecimal(r);
    ParamOfDecimal(g);
    ParamOfDecimal(b);
    assert (Param(fields[2]), Param(fields[3]), Param(fields[4])) == (Some(r), Some(g), Some(b));
  }
}
