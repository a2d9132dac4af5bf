/** Parsed operands, register names as text, and the byte codes they are written with. */
module Operands {
  import opened Bytes

  const REGISTER_PREFIX: byte := 0x01
  const CONSTANT_PREFIX: byte := 0x02
  const MEMORY_PREFIX: byte := 0x03

  datatype Width = W8 | W16 | W32 | W64
  {
    function Prefix(): byte {
      match this
      case W8 => 0x08
      case W16 => 0x16
      case W32 => 0x32
      case W64 => 0x64
    }

    function Size(): (k: nat)
      ensures k == 1 || k == 2 || k == 4 || k == 8
    {
      match this
      case W8 => 1
      case W16 => 2
      case W32 => 4
      case W64 => 8
    }
  }

  function WidthOf(b: byte): (w: Option<Width>)
    ensures w.Some? ==> w.value.Prefix() == b
    ensures w.None? ==> forall v: Width :: v.Prefix() != b
  {
    match b
    case 0x08 => Some(W8)
    case 0x16 => Some(W16)
    case 0x32 => Some(W32)
    case 0x64 => Some(W64)
    case _ => None
  }

  /** How many bytes a width code stands for: the code is the number of bits, its decimal digits
      written as hexadecimal ones. Codes of no width stand for none. */
  function CodedSize(code: byte): nat {
    match code
    case 0x08 => 1
    case 0x16 => 2
    case 0x32 => 4
    case 0x64 => 8
    case _ => 0
  }

  lemma WidthCodes(code: byte)
    ensures match WidthOf(code)
            case None => CodedSize(code) == 0
            case Some(w) => CodedSize(code) == w.Size() && w.Prefix() == code
  {
  }


  /** The ratio of a memory operand; its code is packed BCD. */
  datatype Ratio = X1 | X2 | X4 | X8 | X16
  {
    function Code(): byte {
      match this
      case X1 => 0x01
      case X2 => 0x02
      case X4 => 0x04
      case X8 => 0x08
      case X16 => 0x16
    }

    function Factor(): nat {
      match this
      case X1 => 1
      case X2 => 2
      case X4 => 4
      case X8 => 8
      case X16 => 16
    }
  }

  function RatioOf(b: byte): (r: Option<Ratio>)
    ensures r.Some? ==> r.value.Code() == b
    ensures r.None? ==> forall q: Ratio :: q.Code() != b
  {
    match b
    case 0x01 => Some(X1)
    case 0x02 => Some(X2)
    case 0x04 => Some(X4)
    case 0x08 => Some(X8)
    case 0x16 => Some(X16)
    case _ => None
  }

  /** A ratio's code is its factor, decimal digits written as hexadecimal ones. */
  lemma RatioCodes(r: Ratio)
    ensures r.Factor() == 10 * (r.Code() / 16) + r.Code() % 16
    ensures r.Factor() in {1, 2, 4, 8, 16}
  {
  }

  datatype Kind = KindR | KindEXR | KindHER | KindFER
  {
    function Width(): Width {
      match this
      case KindR => W8
      case KindEXR => W16
      case KindHER => W32
      case KindFER => W64
    }

    function Letters(): string {
      match this
      case KindR => "%R"
      case KindEXR => "%EXR"
      case KindHER => "%HER"
      case KindFER => "%FER"
    }
  }

  /** A register as the source names it: a kind with the digits behind it, or a special name. */
  datatype RegisterName =
    | Numbered(kind: Kind, digits: string)
    | SB | SP | CB | DB | DP | EB | EP
    | XMM(digit: char)
  {
    function Text(): string {
      match this
      case Numbered(kind, digits) => kind.Letters() + digits
      case SB => "%SB"
      case SP => "%SP"
      case CB => "%CB"
      case DB => "%DB"
      case DP => "%DP"
      case EB => "%EB"
      case EP => "%EP"
      case XMM(digit) => "%XMM" + [digit]
    }

    /** What the register pattern of the assembler lets through. */
    predicate MatchesPattern() {
      match this
      case Numbered(KindFER, digits) => |digits| > 0 && AllDigits(digits)
      case Numbered(_, digits) => |digits| == 1 && '0' <= digits[0] <= '7'
      case XMM(digit) => '0' <= digit <= '5'
      case _ => true
    }

    predicate IsSpecial() {
      SB? || SP? || CB? || DB? || DP? || EB? || EP?
    }

    /** The 64-bit registers a memory operand may name. */
    predicate IsWide() {
      IsSpecial() || (Numbered? && kind == KindFER)
    }

    function SpecialCode(): byte
      requires IsSpecial()
    {
      match this
      case SB => 0xA0
      case SP => 0xA1
      case CB => 0xA2
      case DB => 0xA3
      case DP => 0xA4
      case EB => 0xA5
      case EP => 0xA6
    }
  }

  function SpecialOf(code: byte): (r: Option<RegisterName>)
    ensures r.Some? ==> r.value.IsSpecial() && r.value.SpecialCode() == code
  {
    match code
    case 0xA0 => Some(SB)
    case 0xA1 => Some(SP)
    case 0xA2 => Some(CB)
    case 0xA3 => Some(DB)
    case 0xA4 => Some(DP)
    case 0xA5 => Some(EB)
    case 0xA6 => Some(EP)
    case _ => None
  }

  datatype Parameter =
    | RegisterParameter(name: RegisterName)
    | ConstantParameter(width: Width, value: u64)
    | Unrecognized

  /** An operand after pattern matching, with its constants already evaluated. */
  datatype Target =
    | Register(name: RegisterName)
    | Constant(width: Width, value: u64)
    | Memory(ratio: Ratio, width: Width, base: Parameter, offset1: Parameter, offset2: Parameter)

  // ---- decimal text ----

  predicate IsDigit(c: char) {
    '0' <= c <= '9'
  }

  predicate AllDigits(s: string) {
    forall i :: 0 <= i < |s| ==> IsDigit(s[i])
  }

  function DigitValue(c: char): nat
    requires IsDigit(c)
  {
    c as int - '0' as int
  }

  function DigitsValue(s: string): nat
    requires AllDigits(s)
  {
    if s == [] then 0 else 10 * DigitsValue(s[..|s| - 1]) + DigitValue(s[|s| - 1])
  }

  function Decimal(n: nat): (s: string)
    ensures |s| > 0 && AllDigits(s) && DigitsValue(s) == n
  {
    var last := [('0' as int + n % 10) as char];
    if n < 10 then
      assert last[..0] == [];
      last
    else
      assert (Decimal(n / 10) + last)[..|Decimal(n / 10)|] == Decimal(n / 10);
      Decimal(n / 10) + last
  }

  /** The longest run of digits at the end of a text. */
  function TrailingDigits(s: string): (d: string)
    ensures |d| <= |s| && d == s[|s| - |d|..] && AllDigits(d)
    ensures |d| < |s| ==> !IsDigit(s[|s| - |d| - 1])
  {
    if s != [] && IsDigit(s[|s| - 1]) then
      assert s == s[..|s| - 1] + [s[|s| - 1]];
      TrailingDigits(s[..|s| - 1]) + [s[|s| - 1]]
    else
      []
  }

  /** The number a name ends in: none without digits, none when 32 bits cannot hold it. */
  function TrailingNumber(s: string): Option<nat> {
    var d := TrailingDigits(s);
    if d == [] || DigitsValue(d) >= TWO32 then None else Some(DigitsValue(d))
  }

  /** The index written for the digits of a name: what 32 bits cannot hold counts as none. */
  function IndexOf(digits: string): nat
    requires AllDigits(digits)
  {
    if DigitsValue(digits) < TWO32 then DigitsValue(digits) else 0
  }

  lemma {:induction false} TrailingDigitsUnique(s: string, d: string)
    requires |d| <= |s| && d == s[|s| - |d|..] && AllDigits(d)
    requires |d| < |s| ==> !IsDigit(s[|s| - |d| - 1])
    ensures TrailingDigits(s) == d
  {
    hide IsDigit;
    if d != [] {
      SuffixWithoutLast(s, d);
      TrailingDigitsUnique(s[..|s| - 1], d[..|d| - 1]);
    }
  }

  lemma SuffixWithoutLast(s: string, d: string)
    requires 0 < |d| <= |s| && d == s[|s| - |d|..] && AllDigits(d)
    ensures var (t, e) := (s[..|s| - 1], d[..|d| - 1]);
            && e == t[|t| - |e|..] && AllDigits(e)
            && d == e + [s[|s| - 1]] && IsDigit(s[|s| - 1])
  {
    hide IsDigit;
  }

  method ExtractTrailingNumber(input: string) returns (r: Option<nat>)
    ensures r == TrailingNumber(input)
  {
    var pos := |input|;
    while pos > 0 && IsDigit(input[pos - 1])
      invariant 0 <= pos <= |input|
      invariant AllDigits(input[pos..])
    {
      pos := pos - 1;
      assert input[pos..] == [input[pos]] + input[pos + 1..];
    }
    var number := input[pos..];
    TrailingDigitsUnique(input, number);
    if pos == |input| {
      return None;
    }
    r := FromChars(number);
  }

  /** Decimal conversion into 32 bits, failing on overflow. */
  method FromChars(s: string) returns (r: Option<nat>)
    requires |s| > 0 && AllDigits(s)
    ensures r == if DigitsValue(s) < TWO32 then Some(DigitsValue(s)) else None
  {
    var number := 0;
    for i := 0 to |s|
      invariant number == DigitsValue(s[..i])
    {
      assert s[..i + 1][..i] == s[..i];
      number := 10 * number + DigitValue(s[i]);
    }
    assert s[..|s|] == s;
    return if number < TWO32 then Some(number) else None;
  }

  lemma NumberedText(kind: Kind, digits: string)
    requires AllDigits(digits)
    ensures TrailingDigits(Numbered(kind, digits).Text()) == digits
    ensures TrailingNumber(Numbered(kind, digits).Text()) ==
            if digits == [] || DigitsValue(digits) >= TWO32 then None else Some(DigitsValue(digits))
  {
    var t := kind.Letters() + digits;
    assert t[|t| - |digits|..] == digits;
    TrailingDigitsUnique(t, digits);
  }
}
