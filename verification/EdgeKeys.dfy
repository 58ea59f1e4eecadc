/** The textual dictionary keys of edges: two zero-padded hexadecimal numbers
    joined by a comma. */
module EdgeKeys {
  import opened Common
  import opened Edges

  function HexDigit(d: nat): (c: char)
    requires d < 16
  {
    "0123456789abcdef"[d]
  }

  /** Lower-case hexadecimal without padding. */
  function Hex(n: nat): string {
    if n < 16 then [HexDigit(n)] else Hex(n / 16) + [HexDigit(n % 16)]
  }

  function Zeros(k: nat): string {
    seq(k, _ => '0')
  }

  /** At least sixteen digits, padded with zeros on the left. */
  function PaddedHex(n: nat): string {
    var h := Hex(n);
    if |h| < 16 then Zeros(16 - |h|) + h else h
  }

  function EdgeToStr(e: Edge): string {
    PaddedHex(e.src) + "," + PaddedHex(e.dst)
  }

  function DigitValue(c: char): Option<nat> {
    if '0' <= c <= '9' then Some((c - '0') as nat)
    else if 'a' <= c <= 'f' then Some(10 + (c - 'a') as nat)
    else if 'A' <= c <= 'F' then Some(10 + (c - 'A') as nat)
    else None
  }

  /** The value of a string of hexadecimal digits, None on any other character. */
  function DigitsValue(s: string): Option<nat> {
    if s == "" then Some(0)
    else
      match (DigitsValue(s[..|s| - 1]), DigitValue(s[|s| - 1]))
      case (Some(v), Some(d)) => Some(16 * v + d)
      case _ => None
  }

  /** Parsing a number fails on the empty string. */
  function ParseHex(s: string): Option<nat> {
    if s == "" then None else DigitsValue(s)
  }

  /** Cuts a string at every comma. */
  function SplitCommas(s: string): (parts: seq<string>)
    ensures |parts| >= 1
  {
    if s == "" then [""]
    else
      var rest := SplitCommas(s[1..]);
      if s[0] == ',' then [""] + rest else [[s[0]] + rest[0]] + rest[1..]
  }

  /** Reading a key back needs exactly two parts, both numbers. */
  function EdgeStrToTuple(s: string): Option<Edge> {
    var parts := SplitCommas(s);
    if |parts| != 2 then None
    else
      match (ParseHex(parts[0]), ParseHex(parts[1]))
      case (Some(src), Some(dst)) => Some(Edge(src, dst))
      case _ => None
  }

  lemma {:induction false} ZerosValue(k: nat)
    ensures DigitsValue(Zeros(k)) == Some(0)
  {
    if k > 0 {
      assert Zeros(k)[..k - 1] == Zeros(k - 1);
      ZerosValue(k - 1);
    }
  }

  lemma HexDigitValue(d: nat)
    requires d < 16
    ensures DigitValue(HexDigit(d)) == Some(d) && HexDigit(d) != ','
  {
    if d < 10 {
      assert HexDigit(d) == '0' + d as char;
    } else {
      assert HexDigit(d) == 'a' + (d - 10) as char;
    }
  }

  lemma DigitsValueSnoc(s: string, d: nat)
    requires d < 16 && DigitsValue(s).Some?
    ensures DigitsValue(s + [HexDigit(d)]) == Some(16 * DigitsValue(s).value + d)
  {
    hide HexDigit, DigitValue;
    HexDigitValue(d);
    assert (s + [HexDigit(d)])[..|s|] == s;
  }

  lemma {:induction false} PaddedValue(k: nat, n: nat)
    ensures DigitsValue(Zeros(k) + Hex(n)) == Some(n)
  {
    if n < 16 {
      ZerosValue(k);
      DigitsValueSnoc(Zeros(k), n);
    } else {
      PaddedValue(k, n / 16);
      DigitsValueSnoc(Zeros(k) + Hex(n / 16), n % 16);
      assert Zeros(k) + Hex(n) == Zeros(k) + Hex(n / 16) + [HexDigit(n % 16)];
    }
  }

  lemma {:induction false} HexHasNoComma(n: nat)
    ensures Hex(n) != "" && ',' !in Hex(n)
  {
    HexDigitValue(n % 16);
    if n >= 16 {
      HexHasNoComma(n / 16);
    }
  }

  function Pow16(k: nat): nat {
    if k == 0 then 1 else 16 * Pow16(k - 1)
  }

  lemma {:induction false} HexWidth(n: nat, k: nat)
    requires k > 0 && n < Pow16(k)
    ensures |Hex(n)| <= k
  {
    if n >= 16 {
      assert Pow16(k) == 16 * Pow16(k - 1);
      assert k > 1;
      HexWidth(n / 16, k - 1);
    }
  }

  predicate IsLowerHex(s: string) {
    forall i | 0 <= i < |s| :: '0' <= s[i] <= '9' || 'a' <= s[i] <= 'f'
  }

  lemma HexDigitIsLower(d: nat)
    requires d < 16
    ensures IsLowerHex([HexDigit(d)])
  {
    if d < 10 {
      assert HexDigit(d) == '0' + d as char;
    } else {
      assert HexDigit(d) == 'a' + (d - 10) as char;
    }
  }

  /** Keys are written in digits and lower-case letters. */
  lemma {:induction false} HexIsLower(n: nat)
    ensures IsLowerHex(Hex(n)) && IsLowerHex(PaddedHex(n))
  {
    hide HexDigit;
    HexDigitIsLower(n % 16);
    if n >= 16 {
      HexIsLower(n / 16);
    }
  }

  /** The key of an edge between 64-bit addresses has sixteen digits for each. */
  lemma EdgeKeyWidth(e: Edge)
    requires e.src < 0x1_0000_0000_0000_0000 && e.dst < 0x1_0000_0000_0000_0000
    ensures |PaddedHex(e.src)| == 16 && |PaddedHex(e.dst)| == 16
    ensures |EdgeToStr(e)| == 33 && EdgeToStr(e)[16] == ','
  {
    assert Pow16(4) == 0x1_0000;
    assert Pow16(8) == 0x1_0000_0000;
    assert Pow16(12) == 0x1_0000_0000_0000;
    assert Pow16(16) == 0x1_0000_0000_0000_0000;
    HexWidth(e.src, 16);
    HexWidth(e.dst, 16);
  }

  lemma PaddedHexReads(n: nat)
    ensures ',' !in PaddedHex(n)
    ensures ParseHex(PaddedHex(n)) == Some(n)
  {
    HexHasNoComma(n);
    var k := if |Hex(n)| < 16 then 16 - |Hex(n)| else 0;
    assert PaddedHex(n) == Zeros(k) + Hex(n);
    PaddedValue(k, n);
  }

  lemma {:induction false} SplitWithoutComma(s: string)
    requires ',' !in s
    ensures SplitCommas(s) == [s]
  {
    if s != "" {
      SplitWithoutComma(s[1..]);
      assert s == [s[0]] + s[1..];
    }
  }

  lemma {:induction false} SplitAtComma(a: string, b: string)
    requires ',' !in a && ',' !in b
    ensures SplitCommas(a + "," + b) == [a, b]
  {
    var s := a + "," + b;
    if a == "" {
      assert s[1..] == b;
      SplitWithoutComma(b);
    } else {
      assert s[1..] == a[1..] + "," + b;
      SplitAtComma(a[1..], b);
      assert a == [a[0]] + a[1..];
    }
  }

  /** Reading a written key gives the edge back, for addresses of any size. */
  lemma EdgeKeyRoundTrip(e: Edge)
    ensures EdgeStrToTuple(EdgeToStr(e)) == Some(e)
  {
    PaddedHexReads(e.src);
    PaddedHexReads(e.dst);
    SplitAtComma(PaddedHex(e.src), PaddedHex(e.dst));
  }

  /** So a dictionary keyed by these strings is a map keyed by edges. */
  lemma EdgeKeysAreFaithful(e: Edge, f: Edge)
    ensures EdgeToStr(e) == EdgeToStr(f) <==> e == f
  {
    EdgeKeyRoundTrip(e);
    EdgeKeyRoundTrip(f);
  }
}
