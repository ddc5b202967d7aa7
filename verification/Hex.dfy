/** Block numbers as the node sends them: hexadecimal strings with a 0x prefix. */
module Hex {
  import opened Wrappers
  import opened GoNumbers

  function DigitValue(c: char): Option<nat> {
    if '0' <= c <= '9' then Some(c as nat - '0' as nat)
    else if 'a' <= c <= 'f' then Some(c as nat - 'a' as nat + 10)
    else if 'A' <= c <= 'F' then Some(c as nat - 'A' as nat + 10)
    else None
  }

  function DigitChar(d: nat): char
    requires d < 16
  {
    if d < 10 then ('0' as nat + d) as char else ('a' as nat + d - 10) as char
  }

  function ToDigits(n: nat): string {
    if n < 16 then [DigitChar(n)] else ToDigits(n / 16) + [DigitChar(n % 16)]
  }

  /** The number written by a non-empty digit string. */
  function FromDigits(s: string): Option<nat> {
    if s == [] then None
    else
      var n := |s| - 1;
      var last := DigitValue(s[n]);
      if last == None then None
      else if n == 0 then last
      else
        var rest := FromDigits(s[..n]);
        if rest == None then None else Some(rest.value * 16 + last.value)
  }

  function TrimPrefix(s: string): string {
    if "0x" <= s then s[2..] else s
  }

  function Uint64ToHex(v: nat): string {
    "0x" + ToDigits(v)
  }

  /** The listener's parser: an error beyond 64 bits. */
  function HexToUint64(s: string): Option<nat> {
    var r := FromDigits(TrimPrefix(s));
    if r.Some? && r.value < WORD then r else None
  }

  predicate Signed(s: string) {
    s != "" && (s[0] == '-' || s[0] == '+')
  }

  /** The worker's parser goes through a big integer: a sign is accepted, and only the low 64 bits of the
      magnitude are kept. */
  function HexToUint64Big(s: string): Option<nat> {
    var t := TrimPrefix(s);
    var digits := if Signed(t) then t[1..] else t;
    var r := FromDigits(digits);
    if r == None then None else Some(r.value % WORD)
  }

  lemma {:induction false} DigitsRoundTrip(n: nat)
    ensures ToDigits(n) != [] && DigitValue(ToDigits(n)[0]).Some?
    ensures FromDigits(ToDigits(n)) == Some(n)
  {
    if n >= 16 {
      DigitsRoundTrip(n / 16);
      var s := ToDigits(n);
      assert s[..|s| - 1] == ToDigits(n / 16);
      assert s[0] == ToDigits(n / 16)[0];
    }
  }

  lemma PrefixComesOff(d: string)
    ensures TrimPrefix("0x" + d) == d
  {
    assert ("0x" + d)[..2] == "0x" && ("0x" + d)[2..] == d;
  }

  /** Both parsers give back every 64-bit number that was written out. */
  lemma HexRoundTrip(v: nat)
    requires v < 0x1_0000_0000_0000_0000
    ensures HexToUint64(Uint64ToHex(v)) == Some(v) == HexToUint64Big(Uint64ToHex(v))
  {
    var d, s := ToDigits(v), Uint64ToHex(v);
    DigitsRoundTrip(v);
    PrefixComesOff(d);
    assert DigitValue('-') == None && DigitValue('+') == None;
    assert !Signed(d);
  }

  lemma {:induction false} NumbersStartWithADigit(s: string)
    requires FromDigits(s).Some?
    ensures s != [] && DigitValue(s[0]).Some?
  {
    if |s| > 1 {
      NumbersStartWithADigit(s[..|s| - 1]);
    }
  }

  /** Where the two parsers agree, for every string. After a sign they agree only when no number follows: the
      worker reads it and drops the sign, the listener reports an error. Without one they agree unless the
      number does not fit 64 bits: there the worker wraps and the listener reports an error. */
  lemma ParsersAgreeIff(s: string)
    ensures var t := TrimPrefix(s);
            HexToUint64(s) == HexToUint64Big(s) <==>
              if Signed(t) then FromDigits(t[1..]) == None
              else FromDigits(t) == None || FromDigits(t).value < WORD
  {
    var t := TrimPrefix(s);
    if Signed(t) && FromDigits(t).Some? {
      NumbersStartWithADigit(t);
    }
  }

  function Upper(c: char): char {
    if 'a' <= c <= 'z' then (c as nat - 32) as char else c
  }

  function UpperAll(s: string): string {
    seq(|s|, i requires 0 <= i < |s| => Upper(s[i]))
  }

  /** Digits are read alike in either letter case. */
  lemma {:induction false} CaseDoesNotMatter(s: string)
    ensures FromDigits(UpperAll(s)) == FromDigits(s)
  {
    if s != [] {
      var n := |s| - 1;
      assert UpperAll(s)[..n] == UpperAll(s[..n]);
      if n > 0 {
        CaseDoesNotMatter(s[..n]);
      }
    }
  }

  lemma {:induction false} AllDigits(n: nat, i: nat)
    requires i < |ToDigits(n)|
    ensures DigitValue(ToDigits(n)[i]).Some?
  {
    if n >= 16 && i < |ToDigits(n)| - 1 {
      AllDigits(n / 16, i);
    }
  }

  /** The prefix may be missing; beyond 64 bits the listener's parser fails and the worker's gives the low 64
      bits, also of a number with a sign. */
  lemma ParsedAs(n: nat)
    ensures var d := ToDigits(n);
            && HexToUint64(d) == HexToUint64("0x" + d) == (if n < WORD then Some(n) else None)
            && HexToUint64Big(d) == HexToUint64Big("0x" + d) == Some(n % WORD)
            && HexToUint64Big("-" + d) == HexToUint64Big("+" + d) == Some(n % WORD)
            && HexToUint64("-" + d) == HexToUint64("+" + d) == None
  {
    var d := ToDigits(n);
    DigitsRoundTrip(n);
    PrefixComesOff(d);
    NoPrefix(n);
    assert DigitValue('-') == None && DigitValue('+') == None && !Signed(d);
    assert ("-" + d)[0] == '-' && ("-" + d)[1..] == d && TrimPrefix("-" + d) == "-" + d;
    assert ("+" + d)[0] == '+' && ("+" + d)[1..] == d && TrimPrefix("+" + d) == "+" + d;
    if FromDigits("-" + d).Some? {
      NumbersStartWithADigit("-" + d);
    }
    if FromDigits("+" + d).Some? {
      NumbersStartWithADigit("+" + d);
    }
  }

  lemma NoPrefix(n: nat)
    ensures TrimPrefix(ToDigits(n)) == ToDigits(n)
  {
    if |ToDigits(n)| > 1 {
      AllDigits(n, 1);
      assert DigitValue('x') == None;
    }
  }
}
