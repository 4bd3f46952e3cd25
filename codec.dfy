/**
 * The field codec: command-line strings to the document's byte values.
 *
 * `ParseByte` is `Convert.ToByte(string)` restricted to decimal digit strings;
 * `ParseTint` is the nine `Convert.ToByte(sTint.Substring(3 * i, 3))` conversions
 * that every tint command performs before it touches the document.
 */
module Codec {
  import opened Wrappers

  /** A .NET `byte`. */
  type byte = x: int | 0 <= x < 256

  predicate IsDigit(c: char) {
    '0' <= c <= '9'
  }

  predicate AllDigits(s: string) {
    forall i | 0 <= i < |s| :: IsDigit(s[i])
  }

  /** The digit character for d. */
  function Digit(d: nat): (c: char)
    requires d < 10
    ensures IsDigit(c)
  {
    ('0' as int + d) as char
  }

  /** The value of a decimal digit string, most significant digit first. */
  function Decimal(s: string): nat
    requires AllDigits(s)
    decreases |s|
  {
    if s == [] then 0
    else 10 * Decimal(s[..|s| - 1]) + (s[|s| - 1] as int - '0' as int)
  }

  /**
   * `Convert.ToByte(s)`: succeeds on a non-empty digit string (leading zeros
   * allowed) whose value is at most 255, and fails on everything else.
   */
  function ParseByte(s: string): Option<byte> {
    if s != [] && AllDigits(s) && Decimal(s) <= 255 then Some(Decimal(s)) else None
  }

  lemma Decimal1(s: string)
    requires |s| == 1 && AllDigits(s)
    ensures Decimal(s) == s[0] as int - '0' as int
  {
    assert s[..0] == [];
  }

  lemma Decimal2(s: string)
    requires |s| == 2 && AllDigits(s)
    ensures Decimal(s) == 10 * (s[0] as int - '0' as int) + (s[1] as int - '0' as int)
  {
    Decimal1(s[..1]);
  }

  lemma Decimal3(s: string)
    requires |s| == 3 && AllDigits(s)
    ensures Decimal(s) == 100 * (s[0] as int - '0' as int) + 10 * (s[1] as int - '0' as int) + (s[2] as int - '0' as int)
  {
    Decimal2(s[..2]);
  }

  /** A byte in decimal without leading zeros, as `byte.ToString()` writes it. */
  function Show(b: byte): string {
    if b < 10 then [Digit(b)]
    else if b < 100 then [Digit(b / 10), Digit(b % 10)]
    else [Digit(b / 100), Digit(b / 10 % 10), Digit(b % 10)]
  }

  /** A byte as the three zero-padded digits of one colour channel ("007"). */
  function Pad3(b: byte): string {
    [Digit(b / 100), Digit(b / 10 % 10), Digit(b % 10)]
  }

  lemma ShowParses(b: byte)
    ensures ParseByte(Show(b)) == Some(b)
  {
    var s := Show(b);
    if b < 10 {
      Decimal1(s);
    } else if b < 100 {
      Decimal2(s);
    } else {
      Decimal3(s);
    }
  }

  lemma Pad3Parses(b: byte)
    ensures |Pad3(b)| == 3 && ParseByte(Pad3(b)) == Some(b)
  {
    Decimal3(Pad3(b));
  }

  /** A three-character field that parses is exactly the padded form of its value. */
  lemma Pad3Unique(s: string)
    requires |s| == 3 && ParseByte(s).Some?
    ensures Pad3(ParseByte(s).value) == s
  {
    var d0, d1, d2 := s[0] as int - '0' as int, s[1] as int - '0' as int, s[2] as int - '0' as int;
    Decimal3(s);
    var b := Decimal(s);
    assert b / 100 == d0 && b / 10 % 10 == d1 && b % 10 == d2;
    assert Pad3(b) == [s[0], s[1], s[2]];
  }

  lemma {:induction false} DecimalLeadingZero(s: string)
    requires AllDigits(s)
    ensures AllDigits("0" + s) && Decimal("0" + s) == Decimal(s)
    decreases |s|
  {
    var t := "0" + s;
    assert AllDigits(t) by {
      forall i | 0 <= i < |t| ensures IsDigit(t[i]) {
        if i > 0 { assert t[i] == s[i - 1]; }
      }
    }
    if s != [] {
      assert t[..|t| - 1] == "0" + s[..|s| - 1];
      DecimalLeadingZero(s[..|s| - 1]);
    }
  }

  /** Leading zeros do not change what a digit string converts to. */
  lemma LeadingZeroParses(s: string)
    requires s != []
    ensures ParseByte("0" + s) == ParseByte(s)
  {
    if AllDigits(s) {
      DecimalLeadingZero(s);
    } else {
      var i :| 0 <= i < |s| && !IsDigit(s[i]);
      assert ("0" + s)[i + 1] == s[i];
    }
  }

  /** Field i of a colour string: `Substring(3 * i, 3)`. */
  function Slice(s: string, i: nat): string
    requires 3 * i + 3 <= |s|
  {
    s[3 * i..3 * i + 3]
  }

  /**
   * The first n fields of s, converted in order; the first field that is cut
   * short (the string ends inside it) or does not convert fails the lot.
   */
  function ParseFields(s: string, n: nat): (r: Option<seq<byte>>)
    ensures r.Some? <==> 3 * n <= |s| && forall i | 0 <= i < n :: ParseByte(Slice(s, i)).Some?
    ensures r.Some? ==> |r.value| == n && forall i | 0 <= i < n :: ParseByte(Slice(s, i)) == Some(r.value[i])
    decreases n
  {
    if n == 0 then Some([])
    else match ParseFields(s, n - 1)
      case None => None
      case Some(prefix) =>
        if |s| < 3 * n then None
        else match ParseByte(Slice(s, n - 1))
          case None => None
          case Some(b) => Some(prefix + [b])
  }

  /** The nine channel values R1 G1 B1 R2 G2 B2 R3 G3 B3 of a colour string. */
  function ParseTint(s: string): (r: Option<seq<byte>>)
    ensures |s| < 27 ==> r.None?
    ensures r.Some? ==> |r.value| == 9
  {
    ParseFields(s, 9)
  }

  /** The zero-padded wire form of a sequence of channel values. */
  function Format(c: seq<byte>): (s: string)
    ensures |s| == 3 * |c|
  {
    if c == [] then [] else Pad3(c[0]) + Format(c[1..])
  }

  lemma {:induction false} FormatSlice(c: seq<byte>, i: nat)
    requires i < |c|
    ensures |Format(c)| == 3 * |c| && Slice(Format(c), i) == Pad3(c[i])
    decreases |c|
  {
    Pad3Parses(c[0]);
    if i > 0 {
      FormatSlice(c[1..], i - 1);
      assert Slice(Format(c), i) == Slice(Format(c[1..]), i - 1);
    }
  }

  /** Encoding nine channels and parsing the string back gives the channels. */
  lemma TintRoundTrip(c: seq<byte>)
    requires |c| == 9
    ensures ParseTint(Format(c)) == Some(c)
  {
    var s := Format(c);
    forall i | 0 <= i < 9 ensures ParseByte(Slice(s, i)) == Some(c[i]) {
      FormatSlice(c, i);
      Pad3Parses(c[i]);
    }
    assert ParseTint(s).value == c;
  }

  /** A colour string that parses is the padded form of its channels, followed by anything. */
  lemma TintParsedIsCanonical(s: string)
    requires ParseTint(s).Some?
    ensures Format(ParseTint(s).value) == s[..27]
  {
    var c := ParseTint(s).value;
    var t := Format(c);
    forall k | 0 <= k < 27 ensures t[k] == s[k] {
      var i := k / 3;
      FormatSlice(c, i);
      Pad3Unique(Slice(s, i));
      assert t[k] == Slice(t, i)[k - 3 * i];
      assert s[k] == Slice(s, i)[k - 3 * i];
    }
  }

  /** Characters after the 27th are never looked at. */
  lemma TintIgnoresTail(s: string)
    requires |s| >= 27
    ensures ParseTint(s) == ParseTint(s[..27])
  {
    var t := s[..27];
    forall i | 0 <= i < 9 ensures Slice(s, i) == Slice(t, i) { }
    if ParseTint(s).Some? {
      assert ParseTint(s).value == ParseTint(t).value;
    }
  }
}
