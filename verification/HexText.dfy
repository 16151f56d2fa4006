/** Numbers as hexadecimal text: printing with leading zeros, and reading as `std::stoi` does in
    base 16 (src/bus_driver/slcan_driver.cc:87-119). */
module HexText {
  import opened Common

  function HexDigit(n: int): char
    requires 0 <= n < 16
  { "0123456789abcdef"[n] }

  function DigitValue(c: char): Option<nat> {
    if '0' <= c <= '9' then Some(c as int - '0' as int)
    else if 'a' <= c <= 'f' then Some(c as int - 'a' as int + 10)
    else if 'A' <= c <= 'F' then Some(c as int - 'A' as int + 10)
    else None
  }

  /** What the stream writes for n with a zero fill and the given width. */
  function Hex(n: nat, width: nat): (r: string)
    ensures |r| == width
  {
    if width == 0 then "" else Hex(n / 16, width - 1) + [HexDigit(n % 16)]
  }

  function HexValue(s: string): Option<nat> {
    if s == "" then Some(0)
    else
      match (HexValue(s[..|s| - 1]), DigitValue(s[|s| - 1]))
      case (Some(v), Some(d)) => Some(v * 16 + d)
      case _ => None
  }

  /** The blanks of the C locale. */
  predicate Blank(c: char) { c == ' ' || '\t' <= c <= '\r' }

  function SkipBlanks(s: string): (r: string)
    ensures |r| <= |s| && (r == s || (s != "" && Blank(s[0])))
  {
    if s != "" && Blank(s[0]) then SkipBlanks(s[1..]) else s
  }

  /** `0x` is passed over when a digit follows. */
  function AfterPrefix(s: string): (r: string)
    ensures |r| <= |s|
  {
    if |s| >= 3 && s[0] == '0' && s[1] in "xX" && DigitValue(s[2]).Some? then s[2..] else s
  }

  /** How many digits the text starts with. */
  function DigitRun(s: string): (n: nat)
    ensures n <= |s|
  {
    if s == "" || DigitValue(s[0]).None? then 0 else 1 + DigitRun(s[1..])
  }

  /** `std::stoi` in base 16: blanks, a sign, a prefix, and then as many digits as there are; it
      throws when there is none, or when the value is outside `int`. */
  function Stoi(s: string): (r: Option<int>)
    ensures r.Some? ==> -0x8000_0000 <= r.value < 0x8000_0000 && (|s| <= 1 ==> r.value >= 0)
  {
    var t := SkipBlanks(s);
    var signed := t != "" && t[0] in "+-";
    var u := AfterPrefix(if signed then t[1..] else t);
    var n := DigitRun(u);
    match HexValue(u[..n])
    case None => None
    case Some(v) =>
      if n == 0 then None
      else if signed && t[0] == '-' then (if v <= 0x8000_0000 then Some(-(v as int)) else None)
      else if v < 0x8000_0000 then Some(v) else None
  }

  function Pow16(n: nat): nat { if n == 0 then 1 else 16 * Pow16(n - 1) }

  lemma DigitBack(n: int)
    requires 0 <= n < 16
    ensures DigitValue(HexDigit(n)) == Some(n)
  {
  }

  lemma {:induction false} HexRoundTrip(n: nat, width: nat)
    requires n < Pow16(width)
    ensures HexValue(Hex(n, width)) == Some(n)
  {
    hide DigitValue, HexDigit;
    if width > 0 {
      HexRoundTrip(n / 16, width - 1);
      DigitBack(n % 16);
      var h := Hex(n, width);
      assert h[..|h| - 1] == Hex(n / 16, width - 1) && h[|h| - 1] == HexDigit(n % 16);
    }
  }

  lemma {:induction false} AllDigits(s: string, i: nat)
    requires HexValue(s).Some? && i < |s|
    ensures DigitValue(s[i]).Some?
  {
    if i < |s| - 1 { AllDigits(s[..|s| - 1], i); }
  }

  /** The digits are these sixteen, in either case, and no other character is one. */
  lemma DigitsAre(c: char, v: nat)
    ensures DigitValue(c) == Some(v) <==> v < 16 && (c == "0123456789abcdef"[v] || c == "0123456789ABCDEF"[v])
  {
    if v < 16 { assert HexDigit(v) == "0123456789abcdef"[v]; }
  }

  // ---- capitals ----

  function Capital(c: char): char { if 'a' <= c <= 'f' then (c as int - 'a' as int + 'A' as int) as char else c }

  function Capitals(s: string): (r: string)
    ensures |r| == |s| && forall i :: 0 <= i < |s| ==> r[i] == Capital(s[i])
  {
    seq(|s|, i requires 0 <= i < |s| => Capital(s[i]))
  }

  lemma CapitalDigit(c: char)
    ensures DigitValue(Capital(c)) == DigitValue(c) && Blank(Capital(c)) == Blank(c)
  {
  }

  lemma CapitalParts(s: string, i: nat)
    requires i <= |s|
    ensures Capitals(s)[..i] == Capitals(s[..i]) && Capitals(s)[i..] == Capitals(s[i..])
    ensures s == "" ==> Capitals(s) == s
  {
  }

  lemma {:induction false} CapitalsHex(s: string)
    ensures HexValue(Capitals(s)) == HexValue(s)
  {
    hide DigitValue, Capitals;
    if s != "" {
      var n := |s| - 1;
      CapitalsHex(s[..n]);
      CapitalParts(s, n);
      CapitalDigit(s[n]);
    }
  }

  lemma {:induction false} CapitalsRun(s: string)
    ensures DigitRun(Capitals(s)) == DigitRun(s)
  {
    hide DigitValue, Capitals;
    if s != "" {
      CapitalDigit(s[0]);
      CapitalsRun(s[1..]);
      CapitalParts(s, 1);
    }
    CapitalParts(s, 0);
  }

  lemma {:induction false} CapitalsSkip(s: string)
    ensures SkipBlanks(Capitals(s)) == Capitals(SkipBlanks(s))
  {
    hide DigitValue, Capitals, Blank;
    if s != "" {
      CapitalDigit(s[0]);
      CapitalsSkip(s[1..]);
      CapitalParts(s, 1);
    }
    CapitalParts(s, 0);
  }

  lemma CapitalsPrefix(s: string)
    ensures AfterPrefix(Capitals(s)) == Capitals(AfterPrefix(s))
  {
    hide DigitValue;
    if |s| >= 3 {
      CapitalDigit(s[0]);
      CapitalDigit(s[1]);
      CapitalDigit(s[2]);
      CapitalParts(s, 2);
    }
  }

  /** `std::stoi` reads capitals like small letters. */
  lemma CapitalsRead(s: string)
    ensures Stoi(Capitals(s)) == Stoi(s)
  {
    hide DigitValue, Capitals, HexValue, SkipBlanks, AfterPrefix, DigitRun;
    var t := SkipBlanks(s);
    CapitalsSkip(s);
    var signed := t != "" && t[0] in "+-";
    if t != "" {
      assert Capitals(t)[0] == Capital(t[0]);
      CapitalParts(t, 1);
    }
    var v := if signed then t[1..] else t;
    CapitalsPrefix(v);
    var u := AfterPrefix(v);
    CapitalsRun(u);
    CapitalParts(u, DigitRun(u));
    CapitalsHex(u[..DigitRun(u)]);
  }

  // ---- what std::stoi reads, and what it does not ----

  predicate White(c: char) { c in {' ', '\t', '\n', '\U{000B}', '\U{000C}', '\r'} }

  ghost predicate AllWhite(s: string) { forall i :: 0 <= i < |s| ==> White(s[i]) }

  /** A text as `std::stoi` takes it apart: blanks, a sign or none, 0x or nothing, digits as far as
      they go, and whatever follows. The x of a prefix is never left to what follows. */
  ghost predicate Form(s: string, blanks: string, sign: string, prefix: string, digits: string, rest: string) {
    && s == blanks + (sign + (prefix + (digits + rest)))
    && AllWhite(blanks)
    && sign in {"", "+", "-"} && prefix in {"", "0x", "0X"}
    && digits != "" && HexValue(digits).Some? && (rest == "" || DigitValue(rest[0]).None?)
    && (prefix == "" && digits == "0" ==> |rest| < 2 || rest[0] !in {'x', 'X'} || DigitValue(rest[1]).None?)
  }

  lemma {:induction false} SkipAll(blanks: string, t: string)
    requires AllWhite(blanks) && (t == "" || !White(t[0]))
    ensures SkipBlanks(blanks + t) == t
  {
    if blanks == "" {
      assert blanks + t == t;
    } else {
      assert (blanks + t)[1..] == blanks[1..] + t;
      SkipAll(blanks[1..], t);
    }
  }

  lemma {:induction false} RunThenStop(digits: string, rest: string)
    requires HexValue(digits).Some? && (rest == "" || DigitValue(rest[0]).None?)
    ensures DigitRun(digits + rest) == |digits|
    decreases |digits|
  {
    hide DigitValue;
    if digits == "" {
      assert digits + rest == rest;
    } else {
      forall i | 0 <= i < |digits| ensures DigitValue(digits[i]).Some? { AllDigits(digits, i); }
      TailOfDigits(digits);
      RunThenStop(digits[1..], rest);
      assert (digits + rest)[1..] == digits[1..] + rest;
    }
  }

  lemma {:induction false} TailOfDigits(digits: string)
    requires HexValue(digits).Some? && digits != ""
    ensures HexValue(digits[1..]).Some?
  {
    hide DigitValue;
    var n := |digits| - 1;
    if n > 0 {
      TailOfDigits(digits[..n]);
      assert digits[1..][..n - 1] == digits[..n][1..];
    }
  }

  lemma FirstIsDigit(digits: string)
    requires HexValue(digits).Some? && digits != ""
    ensures DigitValue(digits[0]).Some? && !White(digits[0]) && digits[0] !in {'+', '-', 'x', 'X'}
  {
    AllDigits(digits, 0);
  }

  lemma PrefixGone(prefix: string, digits: string, rest: string)
    requires Form(prefix + (digits + rest), "", "", prefix, digits, rest)
    ensures AfterPrefix(prefix + (digits + rest)) == digits + rest
  {
    hide HexValue;
    FirstIsDigit(digits);
    var s, t := prefix + (digits + rest), digits + rest;
    if prefix == "" {
      assert s == t;
      if |digits| >= 2 { AllDigits(digits, 1); }
      if |digits| == 1 && |rest| >= 2 { assert t[1] == rest[0] && t[2] == rest[1]; }
    } else {
      assert s[2..] == t && s[2] == digits[0];
    }
  }

  /** A text of that form is read as the signed value of its digits, if that is an `int`, and
      throws otherwise. */
  lemma FormIsRead(s: string, blanks: string, sign: string, prefix: string, digits: string, rest: string)
    requires Form(s, blanks, sign, prefix, digits, rest)
    ensures var v := (if sign == "-" then -1 else 1) * (HexValue(digits).value as int);
            Stoi(s) == if -0x8000_0000 <= v < 0x8000_0000 then Some(v) else None
  {
    hide HexValue, DigitValue, DigitRun, AfterPrefix, SkipBlanks;
    var w, t := digits + rest, prefix + (digits + rest);
    assert prefix + w == "" + ("" + t);
    FirstIsDigit(digits);
    assert t[0] == if prefix == "" then digits[0] else '0';
    assert (sign + t)[0] == if sign == "" then t[0] else sign[0];
    SkipAll(blanks, sign + t);
    PrefixGone(prefix, digits, rest);
    RunThenStop(digits, rest);
    assert w[..|digits|] == digits;
    if sign == "" { assert sign + t == t; } else { assert (sign + t)[1..] == t; }
  }

  /** Text made of digits only is read as their value. */
  lemma StoiOfDigits(s: string)
    requires s != "" && HexValue(s).Some?
    ensures Stoi(s) == if HexValue(s).value < 0x8000_0000 then Some(HexValue(s).value) else None
  {
    hide HexValue, Stoi;
    assert s == "" + ("" + ("" + (s + "")));
    FormIsRead(s, "", "", "", s, "");
  }

  /** Whatever it reads has that form. */
  lemma ReadHasForm(s: string)
    returns (blanks: string, sign: string, prefix: string, digits: string, rest: string)
    requires Stoi(s).Some?
    ensures Form(s, blanks, sign, prefix, digits, rest)
  {
    hide *;
    var t, v, u, n;
    t, v, u, n := HasDigits(s);
    blanks := Skipped(s);
    sign := Sign(t, v);
    prefix := Prefix(v);
    digits, rest := Halves(u, n);
    RunStops(u);
    NoPrefix(v);
    FormHolds(s, blanks, sign, prefix, digits, rest);
  }

  lemma Halves(u: string, n: nat) returns (a: string, b: string)
    requires n <= |u|
    ensures u == a + b && a == u[..n] && |a| == n && |b| == |u| - n && (b != "" ==> b[0] == u[n])
  {
    a, b := u[..n], u[n..];
  }

  lemma Sign(t: string, v: string) returns (sign: string)
    requires v == if t != "" && t[0] in "+-" then t[1..] else t
    ensures t == sign + v && sign in {"", "+", "-"}
  {
    if t != "" && t[0] in "+-" {
      sign := [t[0]];
      assert sign == if t[0] == '+' then "+" else "-";
    } else {
      sign := "";
    }
  }

  lemma HasDigits(s: string) returns (t: string, v: string, u: string, n: nat)
    requires Stoi(s).Some?
    ensures t == SkipBlanks(s) && v == (if t != "" && t[0] in "+-" then t[1..] else t) && u == AfterPrefix(v)
    ensures 0 < n == DigitRun(u) <= |u| && HexValue(u[..n]).Some?
  {
    hide DigitValue, DigitRun, AfterPrefix, SkipBlanks, HexValue;
    t := SkipBlanks(s);
    v := if t != "" && t[0] in "+-" then t[1..] else t;
    u := AfterPrefix(v);
    n := DigitRun(u);
  }

  lemma FormHolds(s: string, blanks: string, sign: string, prefix: string, digits: string, rest: string)
    requires s == blanks + (sign + (prefix + (digits + rest)))
    requires AllWhite(blanks)
    requires sign in {"", "+", "-"} && prefix in {"", "0x", "0X"}
    requires digits != "" && HexValue(digits).Some? && (rest == "" || DigitValue(rest[0]).None?)
    requires var v := digits + rest;
             prefix == "" && |v| >= 3 && v[0] == '0' && v[1] in {'x', 'X'} ==> DigitValue(v[2]).None?
    ensures Form(s, blanks, sign, prefix, digits, rest)
  {
    hide DigitValue, HexValue;
    var v := digits + rest;
    if prefix == "" && digits == "0" && |rest| >= 2 { assert v[1] == rest[0] && v[2] == rest[1]; }
  }

  lemma {:induction false} Skipped(s: string) returns (blanks: string)
    ensures s == blanks + SkipBlanks(s) && AllWhite(blanks)
  {
    if s != "" && Blank(s[0]) {
      var more := Skipped(s[1..]);
      blanks := [s[0]] + more;
      assert s == [s[0]] + s[1..];
    } else {
      blanks := "";
    }
  }

  lemma Prefix(v: string) returns (prefix: string)
    ensures v == prefix + AfterPrefix(v) && prefix in {"", "0x", "0X"}
    ensures prefix == "" ==> AfterPrefix(v) == v
  {
    if AfterPrefix(v) == v {
      prefix := "";
    } else {
      prefix := v[..2];
      assert v == v[..2] + v[2..] && prefix == [v[0], v[1]];
    }
  }

  lemma NoPrefix(v: string)
    ensures AfterPrefix(v) == v && |v| >= 3 && v[0] == '0' && v[1] in {'x', 'X'} ==> DigitValue(v[2]).None?
  {
    if AfterPrefix(v) == v && |v| >= 3 { assert |v[2..]| < |v|; }
  }

  lemma {:induction false} RunStops(u: string)
    ensures var n := DigitRun(u); n < |u| ==> DigitValue(u[n]).None?
  {
    hide DigitValue;
    if u != "" && DigitValue(u[0]).Some? { RunStops(u[1..]); }
  }

  lemma HexOf32Bits(n: u32)
    requires n < 0x8000_0000
    ensures Stoi(Hex(n, 8)) == Some(n)
  {
    assert Pow16(8) == 0x1_0000_0000 by {
      assert Pow16(4) == 0x1_0000;
    }
    HexRoundTrip(n, 8);
    StoiOfDigits(Hex(n, 8));
  }

  /** Two digits a byte. */
  function HexBytes(s: seq<byte>): (r: string)
    ensures |r| == 2 * |s|
  {
    if s == [] then "" else HexBytes(s[..|s| - 1]) + Hex(s[|s| - 1], 2)
  }
}
