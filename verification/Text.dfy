/** Text as the codecs use it: decimal numbers, latin-1 fields and trailing space. */
module Text {
  import opened Bytes

  // ----- Decimal numbers -----

  predicate IsDigit(c: char) {
    '0' <= c <= '9'
  }

  predicate IsDigits(s: string) {
    s != [] && forall i :: 0 <= i < |s| ==> IsDigit(s[i])
  }

  function DigitOf(n: nat): char
    requires n < 10
  {
    ('0' as int + n) as char
  }

  /** The number a run of digits stands for; the empty run is 0. */
  function Number(s: string): nat
    requires forall i :: 0 <= i < |s| ==> IsDigit(s[i])
  {
    if s == [] then 0
    else
      var last := s[|s| - 1];
      assert IsDigit(last);
      10 * Number(s[..|s| - 1]) + (last as int - '0' as int)
  }

  /** "%d" of a natural number. */
  function Decimal(n: nat): (s: string)
    ensures IsDigits(s)
  {
    if n < 10 then [DigitOf(n)] else Decimal(n / 10) + [DigitOf(n % 10)]
  }

  /** "%02d", "%03d": zeros in front up to a width. */
  function Padded(n: nat, width: nat): (s: string)
    ensures IsDigits(s)
  {
    if |Decimal(n)| < width then seq(width - |Decimal(n)|, i => '0') + Decimal(n) else Decimal(n)
  }

  lemma {:induction false} NumberOfDecimal(n: nat)
    ensures Number(Decimal(n)) == n
  {
    if n >= 10 {
      var s := Decimal(n);
      assert s[..|s| - 1] == Decimal(n / 10);
      NumberOfDecimal(n / 10);
    } else {
      assert Decimal(n)[..0] == [];
    }
  }

  lemma {:induction false} NumberOfPadded(zeros: nat, s: string)
    requires IsDigits(s)
    ensures IsDigits(seq(zeros, i => '0') + s) && Number(seq(zeros, i => '0') + s) == Number(s)
    decreases |s|
  {
    var t := seq(zeros, i => '0') + s;
    assert t[..|t| - 1] == seq(zeros, i => '0') + s[..|s| - 1];
    if |s| == 1 {
      NumberOfZeros(zeros);
      assert t[..|t| - 1] == seq(zeros, i => '0');
      assert s[..0] == [];
    } else {
      NumberOfPadded(zeros, s[..|s| - 1]);
    }
  }

  lemma {:induction false} NumberOfZeros(zeros: nat)
    ensures Number(seq(zeros, i => '0')) == 0
  {
    if zeros > 0 {
      assert seq(zeros, i => '0')[..zeros - 1] == seq(zeros - 1, i => '0');
      NumberOfZeros(zeros - 1);
    }
  }

  /** Different numbers print differently, at any width. */
  lemma {:induction false} PaddedIsInjective(a: nat, b: nat, width: nat, other: nat)
    ensures Padded(a, width) == Padded(b, other) ==> a == b
  {
    hide Decimal;
    PaddedNumber(a, width);
    PaddedNumber(b, other);
  }

  lemma {:induction false} PaddedNumber(n: nat, width: nat)
    ensures Number(Padded(n, width)) == n
  {
    hide Number, Decimal;
    NumberOfDecimal(n);
    if |Decimal(n)| < width {
      NumberOfPadded(width - |Decimal(n)|, Decimal(n));
    }
  }

  // ----- Latin-1 -----

  predicate Latin1(s: string) {
    forall i :: 0 <= i < |s| ==> s[i] as int < 256
  }

  /** latin-1 with spaces up to a width, longer text cut. */
  function Fixed(text: string, width: nat): (f: bytes)
    requires Latin1(text)
    ensures |f| == width
  {
    seq(width, i requires 0 <= i < width => if i < |text| then text[i] as int else 0x20)
  }

  function Decoded(f: bytes): (s: string)
    ensures |s| == |f| && Latin1(s)
  {
    seq(|f|, i requires 0 <= i < |f| => f[i] as char)
  }

  /** What str.rstrip removes from latin-1 text. */
  predicate IsSpace(c: char) {
    var b := c as int;
    9 <= b <= 13 || 28 <= b <= 32 || b == 133 || b == 160
  }

  function RStrip(s: string): string {
    if s != [] && IsSpace(s[|s| - 1]) then RStrip(s[..|s| - 1]) else s
  }

  /** The longest front that does not end in white space. */
  lemma {:induction false} RStripHolds(s: string)
    ensures var r := RStrip(s);
            && |r| <= |s| && r == s[..|r|]
            && (r != [] ==> !IsSpace(r[|r| - 1]))
            && forall i :: |r| <= i < |s| ==> IsSpace(s[i])
    decreases |s|
  {
    if s != [] && IsSpace(s[|s| - 1]) {
      RStripHolds(s[..|s| - 1]);
    }
  }

  lemma {:induction false} PadStripped(name: string, n: nat)
    ensures RStrip(name + seq(n, i => ' ')) == RStrip(name)
    decreases n
  {
    var padded := name + seq(n, i => ' ');
    if n == 0 {
      assert padded == name;
    } else {
      assert padded[..|padded| - 1] == name + seq(n - 1, i => ' ');
      PadStripped(name, n - 1);
    }
  }

  /** The first characters of a name, trailing space removed. */
  function Shown(name: string, width: nat): string {
    RStrip(Slice(name, 0, width))
  }

  /** A name written to a field and read back loses only what the field cuts and trailing space. */
  lemma {:induction false} FieldReadsBack(name: string, width: nat)
    requires Latin1(name)
    ensures RStrip(Decoded(Fixed(name, width))) == Shown(name, width)
  {
    var cut := Slice(name, 0, width);
    PadStripped(cut, width - |cut|);
    assert Decoded(Fixed(name, width)) == cut + seq(width - |cut|, i => ' ');
  }

  // ----- Sixteen-byte patch names -----

  predicate Printable(b: byte) {
    32 <= b < 127
  }

  /** Printable characters and NUL padding in the first sixteen bytes, at least one character. */
  predicate PrintableField(raw: bytes) {
    && |raw| >= 16
    && (exists i :: 0 <= i < 16 && Printable(raw[i]))
    && (forall i :: 0 <= i < 16 ==> Printable(raw[i]) || raw[i] == 0)
  }
}
