/** The typed settings of config.ini and the text each value is written as. */
module ConfigValues {
  import opened Text
  import opened Options

  datatype Kind = BoolKind | IntKind | FloatKind | TextKind

  datatype Setting = Setting(section: string, key: string, kind: Kind, default: string)

  type Int32 = n: int | -0x8000_0000 <= n < 0x8000_0000

  /** A value handed in by the user interface. */
  datatype Value = BoolValue(flag: bool) | IntValue(number: Int32) | RealValue(x: real) | TextValue(text: string)

  /** Printing, reading and rounding of floating-point numbers. */
  datatype Floats = Floats(display: real -> string, parse: string -> real, round: real -> Int32) {
    ghost predicate Valid() {
      forall x: real :: display(parse(display(x))) == display(x)
    }
  }

  // ----- whole numbers -----

  predicate IsDigit(c: char) {
    '0' <= c <= '9'
  }

  function Digit(n: nat): (c: char)
    requires n < 10
    ensures IsDigit(c) && c as int - '0' as int == n
  {
    ('0' as int + n) as char
  }

  function Digits(n: nat): (s: string)
    ensures s != "" && forall i :: 0 <= i < |s| ==> IsDigit(s[i])
  {
    if n < 10 then [Digit(n)] else Digits(n / 10) + [Digit(n % 10)]
  }

  function PrintInt(n: int): string {
    if n < 0 then "-" + Digits(-n) else Digits(n)
  }

  function FromDigits(s: string): Option<nat> {
    if s == "" then None
    else
      var n := |s| - 1;
      if !IsDigit(s[n]) then None
      else
        var d: int := s[n] as int - '0' as int;
        if n == 0 then Some(d)
        else
          match FromDigits(s[..n])
          case None => None
          case Some(high) => Some(high * 10 + d)
  }

  /** A sign, digits, and white space around them; anything else, and anything out of range, counts as 0. */
  function ParseInt(raw: string): Int32 {
    var s := Trimmed(raw);
    var signed := s != "" && (s[0] == '-' || s[0] == '+');
    match FromDigits(if signed then s[1..] else s)
    case None => 0
    case Some(n) =>
      var size: int := n;
      var value := if signed && s[0] == '-' then -size else size;
      if -0x8000_0000 <= value < 0x8000_0000 then value else 0
  }

  lemma {:induction false} DigitsReadBack(n: nat)
    ensures FromDigits(Digits(n)) == Some(n)
  {
    if n < 10 {
    } else {
      DigitsReadBack(n / 10);
      var s := Digits(n);
      assert s[..|s| - 1] == Digits(n / 10);
      assert n == 10 * (n / 10) + n % 10;
    }
  }

  lemma DigitsAreNotSpace(s: string, i: nat)
    requires i < |s| && (IsDigit(s[i]) || s[i] == '-')
    ensures !IsSpace(s[i])
  {
  }

  lemma IntReadsBack(n: Int32)
    ensures ParseInt(PrintInt(n)) == n
  {
    hide IsSpace;
    var s := PrintInt(n);
    var size: int := n;
    DigitsReadBack(if size < 0 then -size else size);
    DigitsAreNotSpace(s, 0);
    DigitsAreNotSpace(s, |s| - 1);
    assert Trimmed(s) == s;
    if n < 0 {
      assert s[1..] == Digits(-size);
    } else {
      assert IsDigit(s[0]);
    }
  }

  // ----- values as text -----

  function Lower(c: char): char {
    if 'A' <= c <= 'Z' then (c as int + 32) as char else c
  }

  predicate SameLetters(a: string, b: string) {
    |a| == |b| && forall i :: 0 <= i < |a| ==> Lower(a[i]) == Lower(b[i])
  }

  function ToBool(v: Value): bool {
    match v
    case BoolValue(b) => b
    case IntValue(n) => n != 0
    case RealValue(x) => x != 0.0
    case TextValue(s) => !(s == "" || s == "0" || SameLetters(s, "false"))
  }

  function ToInt(f: Floats, v: Value): Int32 {
    match v
    case BoolValue(b) => if b then 1 else 0
    case IntValue(n) => n
    case RealValue(x) => f.round(x)
    case TextValue(s) => ParseInt(s)
  }

  function ToReal(f: Floats, v: Value): real {
    match v
    case BoolValue(b) => if b then 1.0 else 0.0
    case IntValue(n) => n as real
    case RealValue(x) => x
    case TextValue(s) => f.parse(s)
  }

  function ToText(f: Floats, v: Value): string {
    match v
    case BoolValue(b) => if b then "true" else "false"
    case IntValue(n) => PrintInt(n)
    case RealValue(x) => f.display(x)
    case TextValue(s) => s
  }

  function Serialize(f: Floats, kind: Kind, v: Value): string {
    match kind
    case BoolKind => if ToBool(v) then "true" else "false"
    case IntKind => PrintInt(ToInt(f, v))
    case FloatKind => f.display(ToReal(f, v))
    case TextKind => ToText(f, v)
  }

  function Deserialize(f: Floats, kind: Kind, raw: string): Value {
    match kind
    case BoolKind => BoolValue(SameLetters(raw, "true") || raw == "1" || SameLetters(raw, "yes"))
    case IntKind => IntValue(ParseInt(raw))
    case FloatKind => RealValue(f.parse(raw))
    case TextKind => TextValue(raw)
  }

  function Canonical(f: Floats, kind: Kind, raw: string): string {
    Serialize(f, kind, Deserialize(f, kind, raw))
  }

  /** What a value is written as is its own canonical form, whatever type the value came in. */
  lemma SerializedIsCanonical(f: Floats, kind: Kind, v: Value)
    requires f.Valid()
    ensures Canonical(f, kind, Serialize(f, kind, v)) == Serialize(f, kind, v)
  {
    hide ParseInt, PrintInt;
    match kind {
      case BoolKind =>
        assert SameLetters("true", "true");
        assert Lower("false"[0]) != Lower("true"[0]);
        assert |"false"| == 5;
      case IntKind => IntReadsBack(ToInt(f, v));
      case FloatKind =>
      case TextKind =>
    }
  }

  lemma CanonicalIsIdempotent(f: Floats, kind: Kind, raw: string)
    requires f.Valid()
    ensures Canonical(f, kind, Canonical(f, kind, raw)) == Canonical(f, kind, raw)
  {
    SerializedIsCanonical(f, kind, Deserialize(f, kind, raw));
  }

  /** A value written as text and read back is the value, when it has the setting's own type. */
  lemma ValueReadsBack(f: Floats, v: Value)
    requires !v.RealValue?
    ensures var kind := if v.BoolValue? then BoolKind else if v.IntValue? then IntKind else TextKind;
            Deserialize(f, kind, Serialize(f, kind, v)) == v
  {
    if v.IntValue? {
      IntReadsBack(v.number);
    } else if v.BoolValue? {
      assert SameLetters("true", "true");
    }
  }

  // ----- what counts as true, and as a number -----

  function Lowered(s: string): string {
    seq(|s|, i requires 0 <= i < |s| => Lower(s[i]))
  }

  lemma SameLettersAsLowered(s: string, word: string)
    requires Lowered(word) == word
    ensures SameLetters(s, word) <==> Lowered(s) == word
  {
    if SameLetters(s, word) {
      forall i | 0 <= i < |s| ensures Lowered(s)[i] == word[i] {
        assert Lowered(word)[i] == word[i];
      }
    }
    if Lowered(s) == word {
      forall i | 0 <= i < |s| ensures Lower(s[i]) == Lower(word[i]) {
        assert Lowered(s)[i] == word[i] && Lowered(word)[i] == word[i];
      }
    }
  }

  /** A boolean setting is true exactly for 1, true and yes in the file, and for what Qt takes as true when set. */
  lemma BooleansExactly(f: Floats, raw: string)
    ensures Canonical(f, BoolKind, raw) == if Lowered(raw) in {"1", "true", "yes"} then "true" else "false"
    ensures Serialize(f, BoolKind, TextValue(raw)) == if Lowered(raw) in {"", "0", "false"} then "false" else "true"
  {
    assert Lowered("true") == "true" && Lowered("yes") == "yes" && Lowered("false") == "false";
    SameLettersAsLowered(raw, "true");
    SameLettersAsLowered(raw, "yes");
    SameLettersAsLowered(raw, "false");
    assert "1" == ['1'] && "0" == ['0'];
    OneCharacter(raw, '1');
    OneCharacter(raw, '0');
    assert Lowered(raw) == "" <==> raw == "";
  }

  lemma OneCharacter(s: string, c: char)
    requires '0' <= c <= '9'
    ensures Lowered(s) == [c] <==> s == [c]
  {
    if Lowered(s) == [c] {
      assert Lower(s[0]) == Lowered(s)[0];
    }
    if s == [c] {
      assert Lowered(s)[0] == c;
    }
  }

  /** A sign and digits read as the number if it fits 32 bits. */
  lemma SignedDigitsRead(raw: string, sign: string, n: nat)
    requires Trimmed(raw) == sign + Digits(n) && sign in {"", "+", "-"}
    ensures var value := if sign == "-" then -(n as int) else n;
            ParseInt(raw) == if -0x8000_0000 <= value < 0x8000_0000 then value else 0
  {
    DigitsReadBack(n);
    var s := Trimmed(raw);
    assert IsDigit(Digits(n)[0]);
    if sign == "" {
      assert s == Digits(n);
    } else {
      assert s[0] == sign[0] && s[1..] == Digits(n);
    }
  }

  /** Anything else counts as 0. */
  lemma OtherTextIsZero(raw: string)
    requires ParseInt(raw) != 0
    ensures exists sign: string, digits: string ::
              && Trimmed(raw) == sign + digits && sign in {"", "+", "-"} && digits != ""
              && forall i :: 0 <= i < |digits| ==> IsDigit(digits[i])
  {
    var s := Trimmed(raw);
    var signed := s != "" && (s[0] == '-' || s[0] == '+');
    var digits := if signed then s[1..] else s;
    OnlyDigits(digits);
    var sign := if !signed then "" else if s[0] == '-' then "-" else "+";
    assert s == sign + digits;
  }

  lemma {:induction false} OnlyDigits(s: string)
    requires FromDigits(s).Some?
    ensures s != "" && forall i :: 0 <= i < |s| ==> IsDigit(s[i])
  {
    if |s| == 1 {
    } else {
      OnlyDigits(s[..|s| - 1]);
    }
  }

  /** A value of another type than the setting's is converted: a number is true unless 0, and truth is 1 or 0. */
  lemma OtherTypesConvert(f: Floats, b: bool, n: Int32, x: real)
    ensures Serialize(f, BoolKind, IntValue(n)) == "false" <==> n == 0
    ensures Serialize(f, BoolKind, RealValue(x)) == "false" <==> x == 0.0
    ensures Serialize(f, IntKind, BoolValue(b)) == if b then "1" else "0"
    ensures ParseInt(Serialize(f, IntKind, RealValue(x))) == f.round(x)
    ensures Serialize(f, FloatKind, BoolValue(b)) == f.display(if b then 1.0 else 0.0)
    ensures Serialize(f, FloatKind, IntValue(n)) == f.display(n as real)
    ensures Serialize(f, TextKind, BoolValue(b)) == Serialize(f, BoolKind, BoolValue(b))
    ensures Serialize(f, TextKind, BoolValue(b)) == if b then "true" else "false"
    ensures Serialize(f, TextKind, IntValue(n)) == Serialize(f, IntKind, IntValue(n))
    ensures Serialize(f, TextKind, RealValue(x)) == Serialize(f, FloatKind, RealValue(x)) == f.display(x)
  {
    hide ParseInt;
    IntReadsBack(f.round(x));
    assert Digits(1) == "1" && Digits(0) == "0";
    assert "true"[0] != "false"[0];
  }
}
