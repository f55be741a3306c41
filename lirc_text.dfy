/**
 * The .NET text conversions the client applies to what the daemon sends:
 * `String.Split(' ')`, `Convert.FromHexString`, `Convert.ToInt32(s, 16)`,
 * `int.TryParse` and the decimal formatting of an `int`, each with the
 * inverse that the daemon's side of the protocol uses.
 */
module LircText {
  import opened LircTypes

  // ---------------------------------------------------------------------
  // String.Split(' '): cuts at every space and keeps empty fields.

  function Spaces(s: string): nat
  {
    if s == [] then 0 else (if s[0] == ' ' then 1 else 0) + Spaces(s[1..])
  }

  function Split(s: string): (fields: seq<string>)
    ensures |fields| == Spaces(s) + 1
    ensures forall i :: 0 <= i < |fields| ==> ' ' !in fields[i]
  {
    if s == [] then [""]
    else
      var rest := Split(s[1..]);
      if s[0] == ' ' then [""] + rest
      else [[s[0]] + rest[0]] + rest[1..]
  }

  /** The fields joined with single spaces: the inverse of Split. */
  function Join(fields: seq<string>): string
    requires |fields| >= 1
  {
    if |fields| == 1 then fields[0] else fields[0] + " " + Join(fields[1..])
  }

  predicate SpaceFree(s: string)
  {
    ' ' !in s
  }

  lemma {:induction false} SplitPrefix(a: string, t: string)
    requires SpaceFree(a)
    ensures Split(a + t) == [a + Split(t)[0]] + Split(t)[1..]
    decreases |a|
  {
    if a == [] {
      var f := Split(t);
      assert a + t == t && a + f[0] == f[0];
      assert f == [f[0]] + f[1..];
    } else {
      assert (a + t)[0] == a[0] && (a + t)[1..] == a[1..] + t;
      SplitPrefix(a[1..], t);
      assert [a[0]] + (a[1..] + Split(t)[0]) == a + Split(t)[0];
    }
  }

  lemma JoinTwo(f: seq<string>)
    requires |f| == 2
    ensures Join(f) == f[0] + " " + f[1]
  {
    assert Join(f[1..]) == f[1];
  }

  lemma JoinThree(f: seq<string>)
    requires |f| == 3
    ensures Join(f) == f[0] + " " + (f[1] + " " + f[2])
  {
    JoinTwo(f[1..]);
  }

  lemma JoinFour(f: seq<string>)
    requires |f| == 4
    ensures Join(f) == f[0] + " " + (f[1] + " " + (f[2] + " " + f[3]))
  {
    JoinThree(f[1..]);
  }

  /** Words written one after another with single spaces are the join of the words. */
  lemma JoinWords(a: string, b: string, c: string, d: string)
    ensures a + " " + b == Join([a, b])
    ensures a + " " + b + " " + c == Join([a, b, c])
    ensures a + " " + b + " " + c + " " + d == Join([a, b, c, d])
  {
    JoinTwo([a, b]);
    JoinThree([a, b, c]);
    JoinFour([a, b, c, d]);
    assert a + " " + b + " " + c == a + " " + (b + " " + c);
    assert a + " " + b + " " + c + " " + d == a + " " + (b + " " + (c + " " + d));
  }

  /** Splitting undoes joining space-free fields. */
  lemma {:induction false} SplitJoin(fields: seq<string>)
    requires |fields| >= 1
    requires forall i :: 0 <= i < |fields| ==> SpaceFree(fields[i])
    ensures Split(Join(fields)) == fields
  {
    if |fields| == 1 {
      SplitPrefix(fields[0], "");
      assert fields[0] + "" == fields[0];
    } else {
      var j := Join(fields[1..]);
      SplitJoin(fields[1..]);
      assert Join(fields) == fields[0] + (" " + j);
      SplitPrefix(fields[0], " " + j);
      assert (" " + j)[1..] == j;
      assert Split(" " + j) == [""] + Split(j);
      assert fields[0] + "" == fields[0];
      assert fields == [fields[0]] + fields[1..];
    }
  }

  /** Joining undoes splitting: no character of the line is lost. */
  lemma {:induction false} JoinSplit(s: string)
    ensures Join(Split(s)) == s
  {
    if s != [] {
      var rest := Split(s[1..]);
      JoinSplit(s[1..]);
      if s[0] == ' ' {
        assert Join(Split(s)) == "" + " " + Join(rest);
      } else if |rest| == 1 {
        assert Join(Split(s)) == [s[0]] + rest[0];
      } else {
        assert Join(rest) == rest[0] + " " + Join(rest[1..]);
        assert Join(Split(s)) == ([s[0]] + rest[0]) + " " + Join(rest[1..]);
      }
      assert s == [s[0]] + s[1..];
    }
  }

  // ---------------------------------------------------------------------
  // Hexadecimal digits.

  predicate IsHexDigit(c: char)
  {
    '0' <= c <= '9' || 'a' <= c <= 'f' || 'A' <= c <= 'F'
  }

  predicate AllHex(s: string)
  {
    forall i :: 0 <= i < |s| ==> IsHexDigit(s[i])
  }

  function HexDigitValue(c: char): (v: nat)
    requires IsHexDigit(c)
    ensures v < 16
  {
    if '0' <= c <= '9' then c as int - '0' as int
    else if 'a' <= c <= 'f' then c as int - 'a' as int + 10
    else c as int - 'A' as int + 10
  }

  /** The lower-case digit of a value below 16. */
  function HexDigit(v: nat): (c: char)
    requires v < 16
    ensures IsHexDigit(c) && HexDigitValue(c) == v
  {
    if v < 10 then ('0' as int + v) as char else ('a' as int + v - 10) as char
  }

  /**
   * Convert.FromHexString: two digits per byte, either case; an odd length
   * or a character that is not a digit raises FormatException (None).
   */
  function FromHexString(s: string): (bytes: Option<seq<byte>>)
    ensures bytes.Some? <==> |s| % 2 == 0 && AllHex(s)
    ensures bytes.Some? ==> |bytes.value| == |s| / 2
  {
    if s == [] then Some([])
    else if |s| == 1 || !IsHexDigit(s[0]) || !IsHexDigit(s[1]) then None
    else
      assert AllHex(s) <==> AllHex(s[2..]) by {
        if AllHex(s[2..]) {
          forall i | 0 <= i < |s| ensures IsHexDigit(s[i]) {
            if i >= 2 { assert s[i] == s[2..][i - 2]; }
          }
        }
      }
      match FromHexString(s[2..])
      case None => None
      case Some(rest) => Some([16 * HexDigitValue(s[0]) + HexDigitValue(s[1])] + rest)
  }

  /** The daemon's rendering of a code: two lower-case digits per byte. */
  function ToHexString(bytes: seq<byte>): (s: string)
    ensures |s| == 2 * |bytes|
    ensures AllHex(s)
  {
    if bytes == [] then ""
    else [HexDigit(bytes[0] / 16), HexDigit(bytes[0] % 16)] + ToHexString(bytes[1..])
  }

  lemma {:induction false} HexRoundTrip(bytes: seq<byte>)
    ensures FromHexString(ToHexString(bytes)) == Some(bytes)
  {
    if bytes != [] {
      var s := ToHexString(bytes);
      assert s[2..] == ToHexString(bytes[1..]);
      HexRoundTrip(bytes[1..]);
      assert bytes == [bytes[0]] + bytes[1..];
    }
  }

  /** Hex digits are never spaces. */
  lemma HexSpaceFree(s: string)
    requires AllHex(s)
    ensures SpaceFree(s)
  {
    assert forall i :: 0 <= i < |s| ==> IsHexDigit(s[i]);
  }

  /** The value of a run of hex digits, most significant first. */
  function HexValue(s: string): nat
    requires AllHex(s)
  {
    if s == [] then 0 else 16 * HexValue(s[..|s| - 1]) + HexDigitValue(s[|s| - 1])
  }

  /** The length of the longest prefix of hex digits. */
  function HexPrefixLength(s: string): (n: nat)
    ensures n <= |s| && AllHex(s[..n])
    ensures n < |s| ==> !IsHexDigit(s[n])
  {
    if s == [] || !IsHexDigit(s[0]) then 0
    else
      var n := 1 + HexPrefixLength(s[1..]);
      assert s[..n] == [s[0]] + s[1..][..n - 1];
      n
  }

  /** A 32-bit pattern read as a two's-complement C# int. */
  function Wrap32(v: nat): Int32
    requires v < 0x1_0000_0000
  {
    if v < 0x8000_0000 then v else v - 0x1_0000_0000
  }

  /**
   * Convert.ToInt32(s, 16): an optional '+', an optional "0x" or "0X",
   * then hex digits up to 0xFFFFFFFF, read as a two's-complement int.
   * An empty string or a '-' raises ArgumentException, no digits or
   * trailing characters FormatException, too many bits OverflowException
   * (checked while the digits are read, so before the trailing characters).
   */
  function HexInt32(s: string): (r: Result<Int32>)
    ensures r.Ok? ==> |s| > 0 && s[0] != '-'
  {
    if s == [] || s[0] == '-' then Err(ArgumentError)
    else
      var t := if s[0] == '+' then s[1..] else s;
      var u := if |t| >= 2 && t[0] == '0' && (t[1] == 'x' || t[1] == 'X') then t[2..] else t;
      var n := HexPrefixLength(u);
      if n == 0 then Err(FormatError)
      else if HexValue(u[..n]) >= 0x1_0000_0000 then Err(OverflowError)
      else if n < |u| then Err(FormatError)
      else Ok(Wrap32(HexValue(u[..n])))
  }

  /**
   * Any run of hex digits, leading zeros included, whose value fits 32 bits
   * converts to that value read as a two's-complement int; a larger value
   * overflows.
   */
  lemma HexInt32Value(s: string)
    requires |s| >= 1 && AllHex(s)
    ensures HexValue(s) < 0x1_0000_0000 ==> HexInt32(s) == Ok(Wrap32(HexValue(s)))
    ensures HexValue(s) >= 0x1_0000_0000 ==> HexInt32(s) == Err(OverflowError)
  {
    assert IsHexDigit(s[0]);
    assert |s| >= 2 ==> IsHexDigit(s[1]);
    assert HexPrefixLength(s) == |s|;
    assert s[..|s|] == s;
  }

  /**
   * A leading '+' or "0x"/"0X" does not change the conversion of a run of
   * hex digits; a leading '-' is an argument error.
   */
  lemma HexInt32Prefixes(s: string)
    requires |s| >= 1 && AllHex(s)
    ensures HexInt32("+" + s) == HexInt32(s)
    ensures HexInt32("0x" + s) == HexInt32(s) && HexInt32("0X" + s) == HexInt32(s)
    ensures HexInt32("+0x" + s) == HexInt32(s)
    ensures HexInt32("-" + s) == Err(ArgumentError)
  {
    HexInt32Signed(s);
    HexInt32Radix(s, "0x");
    HexInt32Radix(s, "0X");
    HexInt32Minus(s);
    HexInt32SignedRadix(s);
  }

  lemma HexInt32Signed(s: string)
    requires |s| >= 1 && AllHex(s)
    ensures HexInt32("+" + s) == HexInt32(s)
  {
    assert IsHexDigit(s[0]);
    assert |s| >= 2 ==> IsHexDigit(s[1]);
    assert ("+" + s)[1..] == s;
  }

  lemma HexInt32Radix(s: string, x: string)
    requires |s| >= 1 && AllHex(s) && (x == "0x" || x == "0X")
    ensures HexInt32(x + s) == HexInt32(s)
  {
    assert IsHexDigit(s[0]);
    assert |s| >= 2 ==> IsHexDigit(s[1]);
    assert (x + s)[2..] == s;
  }

  lemma HexInt32Minus(s: string)
    ensures HexInt32("-" + s) == Err(ArgumentError)
  {
    assert ("-" + s)[0] == '-';
  }

  lemma HexInt32SignedRadix(s: string)
    requires |s| >= 1 && AllHex(s)
    ensures HexInt32("+0x" + s) == HexInt32(s)
  {
    assert IsHexDigit(s[0]);
    assert |s| >= 2 ==> IsHexDigit(s[1]);
    assert ("+0x" + s)[1..] == "0x" + s;
    assert ("+0x" + s)[1..][2..] == s;
  }

  /** The prefixes Convert.ToInt32(s, 16) skips before the digits. */
  const HexPrefixes: seq<string> := ["", "+", "0x", "0X", "+0x", "+0X"]

  /** `s` is an accepted prefix followed by a run of hex digits that fits 32 bits. */
  predicate HexForm(s: string, p: string, d: string)
  {
    p in HexPrefixes && s == p + d && |d| >= 1 && AllHex(d) && HexValue(d) < 0x1_0000_0000
  }

  /**
   * The converse of HexInt32Value and HexInt32Prefixes: only a skipped prefix
   * followed by hex digits worth less than 2^32 converts, and to their
   * wrapped value; any other text fails.
   */
  lemma HexInt32Accepted(s: string)
    requires HexInt32(s).Ok?
    ensures exists p, d :: HexForm(s, p, d) && HexInt32(s) == Ok(Wrap32(HexValue(d)))
  {
    var sg, t, u := HexDigitsPart(s);
    var q, u' := RadixParts(t);
    assert s == (sg + q) + u by {
      assert t == q + u;
    }
    PrefixesJoin(sg, q);
    assert HexForm(s, sg + q, u);
  }

  /** The sign, the rest, and the digits that a successful HexInt32 converted. */
  lemma HexDigitsPart(s: string) returns (sg: string, t: string, u: string)
    requires HexInt32(s).Ok?
    ensures s == sg + t && sg in ["", "+"]
    ensures u == (if |t| >= 2 && t[0] == '0' && (t[1] == 'x' || t[1] == 'X') then t[2..] else t)
    ensures |u| >= 1 && AllHex(u) && HexValue(u) < 0x1_0000_0000 && HexInt32(s) == Ok(Wrap32(HexValue(u)))
  {
    t := if s[0] == '+' then s[1..] else s;
    sg := if s[0] == '+' then "+" else "";
    u := if |t| >= 2 && t[0] == '0' && (t[1] == 'x' || t[1] == 'X') then t[2..] else t;
    var n := HexPrefixLength(u);
    assert n == |u| && u[..n] == u;
  }

  /** The radix prefix "0x" or "0X" that Convert.ToInt32(s, 16) skips, if any. */
  lemma RadixParts(t: string) returns (q: string, u: string)
    ensures u == (if |t| >= 2 && t[0] == '0' && (t[1] == 'x' || t[1] == 'X') then t[2..] else t)
    ensures t == q + u && q in ["", "0x", "0X"]
  {
    if |t| >= 2 && t[0] == '0' && (t[1] == 'x' || t[1] == 'X') {
      q, u := t[..2], t[2..];
      assert q == ['0', t[1]];
    } else {
      q, u := "", t;
    }
  }

  lemma PrefixesJoin(sg: string, q: string)
    requires sg in ["", "+"] && q in ["", "0x", "0X"]
    ensures sg + q in HexPrefixes
  {
    if sg == "+" {
      assert q == "" || q == "0x" || q == "0X";
      assert "+" + "" == "+" && "+" + "0x" == "+0x" && "+" + "0X" == "+0X";
    } else {
      assert sg + q == q;
    }
  }

  /** A leading zero digit does not change the value of a run of hex digits. */
  lemma {:induction false} HexValueLeadingZero(s: string)
    requires AllHex(s)
    ensures AllHex("0" + s) && HexValue("0" + s) == HexValue(s)
  {
    var z := "0" + s;
    assert forall i :: 0 <= i < |z| ==> IsHexDigit(z[i]) by {
      forall i | 0 <= i < |z| ensures IsHexDigit(z[i]) {
        if i > 0 { assert z[i] == s[i - 1]; }
      }
    }
    if s != [] {
      assert z[..|z| - 1] == "0" + s[..|s| - 1];
      assert z[|z| - 1] == s[|s| - 1];
      HexValueLeadingZero(s[..|s| - 1]);
    }
  }

  /** The shortest lower-case hex rendering of a number. */
  function HexOfNat(n: nat): (s: string)
    ensures |s| >= 1 && AllHex(s)
  {
    if n < 16 then [HexDigit(n)] else HexOfNat(n / 16) + [HexDigit(n % 16)]
  }

  lemma {:induction false} HexValueOfHex(n: nat)
    ensures HexValue(HexOfNat(n)) == n
  {
    if n >= 16 {
      var s := HexOfNat(n);
      assert s[..|s| - 1] == HexOfNat(n / 16);
      HexValueOfHex(n / 16);
    }
  }

  /** The `%02x` rendering: at least two lower-case digits, zero-padded. */
  function Hex2(n: nat): (s: string)
    ensures |s| >= 2 && AllHex(s) && HexValue(s) == n
  {
    HexValueOfHex(n);
    var h := HexOfNat(n);
    if |h| < 2 then HexValueLeadingZero(h); "0" + h else h
  }

  /**
   * Reading back a rendered 32-bit pattern gives its two's-complement
   * value, in the shortest and in the zero-padded rendering.
   */
  lemma HexInt32RoundTrip(n: nat)
    requires n < 0x1_0000_0000
    ensures HexInt32(HexOfNat(n)) == Ok(Wrap32(n))
    ensures HexInt32(Hex2(n)) == Ok(Wrap32(n))
  {
    HexValueOfHex(n);
    HexInt32Value(HexOfNat(n));
    HexInt32Value(Hex2(n));
  }

  // ---------------------------------------------------------------------
  // Decimal numbers.

  predicate IsDecimalDigit(c: char)
  {
    '0' <= c <= '9'
  }

  predicate AllDecimal(s: string)
  {
    forall i :: 0 <= i < |s| ==> IsDecimalDigit(s[i])
  }

  function DecimalValue(s: string): nat
    requires AllDecimal(s)
  {
    if s == [] then 0 else 10 * DecimalValue(s[..|s| - 1]) + (s[|s| - 1] as int - '0' as int)
  }

  /** The rendering of a non-negative C# int in an interpolated string. */
  function DecimalOf(n: nat): (s: string)
    ensures |s| >= 1 && AllDecimal(s)
  {
    if n < 10 then [('0' as int + n) as char]
    else DecimalOf(n / 10) + [('0' as int + n % 10) as char]
  }

  lemma {:induction false} DecimalValueOf(n: nat)
    ensures DecimalValue(DecimalOf(n)) == n
  {
    if n >= 10 {
      var s := DecimalOf(n);
      assert s[..|s| - 1] == DecimalOf(n / 10);
      DecimalValueOf(n / 10);
    }
  }

  /** The white space that int.TryParse skips at either end. */
  predicate IsWhite(c: char)
  {
    c == ' ' || '\t' <= c <= '\r'
  }

  /** The white-space skip of int.TryParse at the start: drops the leading white space and nothing else. */
  function TrimStart(s: string): (t: string)
    ensures |t| <= |s|
    ensures t == [] || !IsWhite(t[0])
  {
    if s != [] && IsWhite(s[0]) then TrimStart(s[1..]) else s
  }

  /** What TrimStart removes is a run of white space at the start, and nothing else. */
  lemma {:induction false} TrimStartRemovesWhite(s: string)
    ensures var t := TrimStart(s);
            t == s[|s| - |t|..] && forall i :: 0 <= i < |s| - |t| ==> IsWhite(s[i])
  {
    if s != [] && IsWhite(s[0]) {
      TrimStartRemovesWhite(s[1..]);
      var t := TrimStart(s);
      assert s[1..][|s| - 1 - |t|..] == s[|s| - |t|..];
      forall i | 1 <= i < |s| - |t| ensures IsWhite(s[i]) {
        assert s[i] == s[1..][i - 1];
      }
    }
  }

  /** The white-space skip of int.TryParse at the end: drops the trailing white space and nothing else. */
  function TrimEnd(s: string): (t: string)
    ensures |t| <= |s|
    ensures t == [] || !IsWhite(t[|t| - 1])
  {
    if s != [] && IsWhite(s[|s| - 1]) then TrimEnd(s[..|s| - 1]) else s
  }

  /** What TrimEnd removes is a run of white space at the end, and nothing else. */
  lemma {:induction false} TrimEndRemovesWhite(s: string)
    ensures var t := TrimEnd(s);
            t == s[..|t|] && forall i :: |t| <= i < |s| ==> IsWhite(s[i])
  {
    if s != [] && IsWhite(s[|s| - 1]) {
      TrimEndRemovesWhite(s[..|s| - 1]);
      var t := TrimEnd(s);
      assert s[..|s| - 1][..|t|] == s[..|t|];
      forall i | |t| <= i < |s| - 1 ensures IsWhite(s[i]) {
        assert s[i] == s[..|s| - 1][i];
      }
    }
  }

  predicate AllWhite(s: string)
  {
    forall i :: 0 <= i < |s| ==> IsWhite(s[i])
  }

  /**
   * int.TryParse with the integer number style: white space at either end,
   * an optional sign, at least one decimal digit, and a value that fits an
   * int; anything else fails (None).
   */
  function TryParseInt32(s: string): Option<Int32>
  {
    ParseSigned(TrimEnd(TrimStart(s)))
  }

  /** A count that is empty or only white space does not parse. */
  lemma TryParseBlank(s: string)
    requires AllWhite(s)
    ensures TryParseInt32(s).None?
  {
    TrimStartRemovesWhite(s);
  }

  /** The trimmed text of int.TryParse: an optional sign, then decimal digits. */
  function ParseSigned(t: string): (r: Option<Int32>)
  {
    if t == [] then None
    else
      var digits := if t[0] == '-' || t[0] == '+' then t[1..] else t;
      if digits == [] || !AllDecimal(digits) then None
      else
        var v: int := if t[0] == '-' then -(DecimalValue(digits) as int) else DecimalValue(digits);
        if -0x8000_0000 <= v < 0x8000_0000 then Some(v) else None
  }

  lemma {:induction false} TrimStartWhite(pre: string, t: string)
    requires AllWhite(pre) && t != [] && !IsWhite(t[0])
    ensures TrimStart(pre + t) == t
  {
    if pre != [] {
      assert (pre + t)[0] == pre[0];
      assert (pre + t)[1..] == pre[1..] + t;
      TrimStartWhite(pre[1..], t);
    } else {
      assert pre + t == t;
    }
  }

  lemma {:induction false} TrimEndWhite(t: string, post: string)
    requires AllWhite(post) && t != [] && !IsWhite(t[|t| - 1])
    ensures TrimEnd(t + post) == t
  {
    if post != [] {
      assert (t + post)[|t + post| - 1] == post[|post| - 1];
      assert (t + post)[..|t + post| - 1] == t + post[..|post| - 1];
      TrimEndWhite(t, post[..|post| - 1]);
    } else {
      assert t + post == t;
    }
  }

  /** White space around a number, on either side, is ignored by int.TryParse. */
  lemma TrimAround(pre: string, t: string, post: string)
    requires AllWhite(pre) && AllWhite(post)
    requires t != [] && !IsWhite(t[0]) && !IsWhite(t[|t| - 1])
    ensures TrimEnd(TrimStart(pre + t + post)) == t
  {
    var x := t + post;
    assert pre + t + post == pre + x;
    assert x[0] == t[0];
    TrimStartWhite(pre, x);
    TrimEndWhite(t, post);
  }

  /** White space around a number, on either side, does not change what int.TryParse gives. */
  lemma TryParseInt32Around(pre: string, t: string, post: string)
    requires AllWhite(pre) && AllWhite(post)
    requires t != [] && !IsWhite(t[0]) && !IsWhite(t[|t| - 1])
    ensures TryParseInt32(pre + t + post) == TryParseInt32(t)
  {
    TrimAround(pre, t, post);
    assert TrimStart(t) == t && TrimEnd(t) == t;
  }

  /** A number with no white space at its ends is parsed without trimming. */
  lemma TryParseUntrimmed(t: string)
    requires t != [] && !IsWhite(t[0]) && !IsWhite(t[|t| - 1])
    ensures TryParseInt32(t) == ParseSigned(t)
  {
    assert TrimStart(t) == t && TrimEnd(t) == t;
  }

  /** `s` is white space, an optional sign, decimal digits and white space, and `v` is their value. */
  predicate IntegerForm(s: string, pre: string, sg: string, d: string, post: string, v: int)
  {
    && AllWhite(pre) && AllWhite(post) && sg in ["", "+", "-"]
    && |d| >= 1 && AllDecimal(d) && s == pre + sg + d + post
    && v == (if sg == "-" then -(DecimalValue(d) as int) else DecimalValue(d))
  }

  /**
   * The converse of TryParseInt32Around and SignedForms: only white space
   * around an optional sign and a run of decimal digits parses, and to
   * their value; any other text fails.
   */
  lemma TryParseInt32Accepted(s: string, v: Int32)
    requires TryParseInt32(s) == Some(v)
    ensures exists pre, sg, d, post :: IntegerForm(s, pre, sg, d, post, v)
  {
    var pre, t, post := TrimParts(s);
    var sg, d := SignParts(t, v);
    assert s == pre + sg + d + post by {
      assert pre + t + post == pre + (sg + d) + post;
    }
    assert IntegerForm(s, pre, sg, d, post, v);
  }

  /** What the white-space skip leaves, with the white space it removed. */
  lemma TrimParts(s: string) returns (pre: string, t: string, post: string)
    ensures t == TrimEnd(TrimStart(s)) && s == pre + t + post
    ensures AllWhite(pre) && AllWhite(post)
  {
    TrimStartRemovesWhite(s);
    var a := TrimStart(s);
    pre := s[..|s| - |a|];
    assert s == pre + a;
    TrimEndRemovesWhite(a);
    t := TrimEnd(a);
    post := a[|t|..];
    assert a == t + post;
    forall i | 0 <= i < |post| ensures IsWhite(post[i]) {
      assert post[i] == a[|t| + i];
    }
  }

  /** What ParseSigned accepts: an optional sign, then digits with that value. */
  lemma SignParts(t: string, v: Int32) returns (sg: string, d: string)
    requires ParseSigned(t) == Some(v)
    ensures t == sg + d && sg in ["", "+", "-"] && |d| >= 1 && AllDecimal(d)
    ensures v == (if sg == "-" then -(DecimalValue(d) as int) else DecimalValue(d))
  {
    sg := if t[0] == '-' || t[0] == '+' then t[..1] else "";
    d := t[|sg|..];
    assert t == sg + d;
    if t[0] == '-' {
      assert sg == "-";
    } else if t[0] == '+' {
      assert sg == "+";
    }
  }

  /** The signs on a run of decimal digits. */
  lemma ParseSignedDigits(d: string)
    requires d != [] && AllDecimal(d)
    ensures var v: int := DecimalValue(d);
            && ParseSigned(d) == (if v < 0x8000_0000 then Some(v) else None)
            && ParseSigned("+" + d) == (if v < 0x8000_0000 then Some(v) else None)
            && ParseSigned("-" + d) == (if v <= 0x8000_0000 then Some(-v) else None)
  {
    assert IsDecimalDigit(d[0]);
    assert ("+" + d)[1..] == d && ("-" + d)[1..] == d;
  }

  /**
   * A run of decimal digits (leading zeros allowed): unsigned or with '+'
   * it gives its value, with '-' the negated value, and it fails when that
   * does not fit an int.
   */
  lemma SignedForms(d: string)
    requires d != [] && AllDecimal(d)
    ensures var v: int := DecimalValue(d);
            && TryParseInt32(d) == (if v < 0x8000_0000 then Some(v) else None)
            && TryParseInt32("+" + d) == (if v < 0x8000_0000 then Some(v) else None)
            && TryParseInt32("-" + d) == (if v <= 0x8000_0000 then Some(-v) else None)
  {
    var plus, minus := "+" + d, "-" + d;
    assert IsDecimalDigit(d[0]) && IsDecimalDigit(d[|d| - 1]);
    assert plus[|plus| - 1] == d[|d| - 1] && minus[|minus| - 1] == d[|d| - 1];
    TryParseUntrimmed(d);
    TryParseUntrimmed(plus);
    TryParseUntrimmed(minus);
    ParseSignedDigits(d);
  }

  /** A rendered count reads back as itself. */
  lemma DecimalRoundTrip(n: nat)
    requires n < 0x8000_0000
    ensures TryParseInt32(DecimalOf(n)) == Some(n)
  {
    var s := DecimalOf(n);
    assert !IsWhite(s[0]) && !IsWhite(s[|s| - 1]);
    assert TrimStart(s) == s;
    assert TrimEnd(s) == s;
    DecimalValueOf(n);
  }
}
