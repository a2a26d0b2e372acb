/**
 * The prelude's base62 text encoding of unsigned 128-bit integers, written
 * most significant digit first over the alphabet 0-9, a-z, A-Z.
 */
module Base62 {
  import opened Wrappers

  /** 2^128: every u128 value is below it. */
  const U128_LIMIT: nat := 0x1_0000_0000_0000_0000_0000_0000_0000_0000

  type U128 = n: nat | n < U128_LIMIT

  const Digits: string := "0123456789"
  const Lower: string := "abcdefghijklmnopqrstuvwxyz"
  const Upper: string := "ABCDEFGHIJKLMNOPQRSTUVWXYZ"

  /** `CHARACTERS`: digit d is written as Alphabet[d]. */
  const Alphabet: string := Digits + Lower + Upper

  /** The character of digit `d`, by code point. */
  function DigitChar(d: nat): (c: char)
    requires d < 62
  {
    if d < 10 then ('0' as int + d) as char
    else if d < 36 then ('a' as int + d - 10) as char
    else ('A' as int + d - 36) as char
  }

  lemma AlphabetIsDigitChars()
    ensures |Alphabet| == 62
    ensures forall d :: 0 <= d < 62 ==> Alphabet[d] == DigitChar(d)
  {
    assert Digits == seq(10, i requires 0 <= i < 10 => ('0' as int + i) as char);
    assert Lower == seq(26, i requires 0 <= i < 26 => ('a' as int + i) as char);
    assert Upper == seq(26, i requires 0 <= i < 26 => ('A' as int + i) as char);
  }

  /** `CHARACTERS.find(c)`: the index of `c` in the alphabet, None when it does not occur. */
  function Position(c: char): (r: Option<nat>)
    ensures r.Some? ==> r.value < 62 && DigitChar(r.value) == c
  {
    if '0' <= c <= '9' then Some(c as int - '0' as int)
    else if 'a' <= c <= 'z' then Some(c as int - 'a' as int + 10)
    else if 'A' <= c <= 'Z' then Some(c as int - 'A' as int + 36)
    else None
  }

  /** `Position` agrees with the alphabet: it finds exactly the characters that occur in it, at their index. */
  lemma PositionInAlphabet(c: char)
    ensures Position(c).Some? ==> Alphabet[Position(c).value] == c
    ensures Position(c).None? <==> c !in Alphabet
  {
    AlphabetIsDigitChars();
    if c in Alphabet {
      var i :| 0 <= i < |Alphabet| && Alphabet[i] == c;
      assert DigitChar(i) == c;
    }
  }

  lemma PositionOfDigit(d: nat)
    requires d < 62
    ensures Position(Alphabet[d]) == Some(d)
  {
    AlphabetIsDigitChars();
  }

  /** The digit a character stands for; characters outside the alphabet count as 0. */
  function Digit(c: char): nat {
    match Position(c)
    case Some(d) => d
    case None => 0
  }

  /** Every character of `s` is a base62 digit (see `PositionInAlphabet`). */
  predicate InAlphabet(s: string) {
    forall i :: 0 <= i < |s| ==> Position(s[i]).Some?
  }

  function Pow62(k: nat): (p: nat)
    ensures p >= 1
  {
    if k == 0 then 1 else 62 * Pow62(k - 1)
  }

  lemma {:induction false} Pow62Add(a: nat, b: nat)
    ensures Pow62(a + b) == Pow62(a) * Pow62(b)
  {
    if a > 0 {
      Pow62Add(a - 1, b);
      assert Pow62(a + b) == 62 * (Pow62(a - 1) * Pow62(b));
    }
  }

  /** The number a digit string denotes, most significant digit first. */
  function Value(s: string): nat {
    if s == [] then 0 else Digit(s[0]) * Pow62(|s| - 1) + Value(s[1..])
  }

  /** The digits of `n`, most significant first, with no leading zero. */
  function Encoded(n: nat): string
    decreases n
  {
    if n == 0 then "" else Encoded(n / 62) + [Alphabet[n % 62]]
  }

  function Reversed(s: string): (r: string)
    ensures |r| == |s|
  {
    if s == [] then [] else [s[|s| - 1]] + Reversed(s[..|s| - 1])
  }

  /** `encode`: emit the least significant digit while dividing by 62, then reverse. */
  method Encode(input: U128) returns (s: string)
    ensures s == Encoded(input)
  {
    var n: nat := input;
    var result: string := "";
    while n > 0
      invariant Encoded(input) == Encoded(n) + Reversed(result)
    {
      var character := Alphabet[n % 62];
      assert (result + [character])[..|result|] == result;
      result := result + [character];
      n := n / 62;
    }
    s := Reversed(result);
  }

  /** `encode` emits only alphabet characters; `encode(0)` is empty and nothing else is; no leading '0'. */
  lemma {:induction false} EncodedShape(n: nat)
    ensures InAlphabet(Encoded(n))
    ensures Encoded(n) == "" <==> n == 0
    ensures n > 0 ==> Encoded(n)[0] != '0'
    decreases n
  {
    AlphabetIsDigitChars();
    if n > 0 {
      EncodedShape(n / 62);
      var e := Encoded(n / 62);
      assert Encoded(n) == e + [Alphabet[n % 62]];
      if n / 62 == 0 {
        assert Encoded(n)[0] == DigitChar(n % 62);
      } else {
        assert Encoded(n)[0] == e[0];
      }
    }
  }

  lemma {:induction false} ValueAppend(a: string, c: char)
    ensures Value(a + [c]) == Value(a) * 62 + Digit(c)
  {
    if a == [] {
      assert Value([c]) == Digit(c) * Pow62(0) + Value([]);
    } else {
      var ac := a + [c];
      assert ac[0] == a[0] && ac[1..] == a[1..] + [c] && |ac| - 1 == |a|;
      ValueAppend(a[1..], c);
      var d, p, v := Digit(a[0]), Pow62(|a| - 1), Value(a[1..]);
      assert Value(a) == d * p + v;
      assert Value(ac) == d * Pow62(|a|) + Value(a[1..] + [c]);
      assert Pow62(|a|) == 62 * p;
      assert Value(a[1..] + [c]) == v * 62 + Digit(c);
      Regroup(d, p, v, Digit(c));
    }
  }

  /** The arithmetic step of `ValueAppend`: the leading digit moves one place up with the rest. */
  lemma Regroup(d: nat, p: nat, v: nat, x: nat)
    ensures d * (62 * p) + (v * 62 + x) == (d * p + v) * 62 + x
  {
  }

  /** The encoded digits denote the number encoded. */
  lemma {:induction false} EncodedValue(n: nat)
    ensures Value(Encoded(n)) == n
    decreases n
  {
    if n > 0 {
      EncodedValue(n / 62);
      ValueAppend(Encoded(n / 62), Alphabet[n % 62]);
      PositionOfDigit(n % 62);
    }
  }

  /** A suffix of a digit string never denotes more than the whole string. */
  lemma {:induction false} ValueSuffix(s: string, j: nat)
    requires j <= |s|
    ensures Value(s[j..]) <= Value(s)
  {
    if j > 0 {
      var tail := s[1..];
      assert tail[j - 1..] == s[j..];
      ValueSuffix(tail, j - 1);
      var lead := Digit(s[0]) * Pow62(|s| - 1);
      assert lead >= 0;
      assert Value(s) == lead + Value(tail);
    }
  }

  /** What `decode` is meant to return: the value, when every character is a digit and the value fits a u128. */
  function Decoded(s: string): (r: Option<nat>)
    ensures r.Some? ==> r.value < U128_LIMIT
  {
    if InAlphabet(s) && Value(s) < U128_LIMIT then Some(Value(s)) else None
  }

  /**
   * `decode`, with the power of 62 computed exactly: the characters are taken
   * from the back, the k-th one weighted by 62^k, and every product and sum is
   * checked against the u128 range.
   */
  method Decode(s: string) returns (r: Option<nat>)
    ensures r == Decoded(s)
  {
    var result: nat := 0;
    var index := 0;
    while index < |s|
      invariant 0 <= index <= |s|
      invariant InAlphabet(s[|s| - index..])
      invariant result == Value(s[|s| - index..]) && result < U128_LIMIT
    {
      var at := |s| - 1 - index;
      var position := Position(s[at]);
      if position.None? {
        return None;
      }
      assert s[at..][1..] == s[|s| - index..];
      assert Value(s[at..]) == position.value * Pow62(index) + result;
      var positionValue := position.value * Pow62(index);
      if positionValue >= U128_LIMIT {
        ValueSuffix(s, at);
        return None;
      }
      if result + positionValue >= U128_LIMIT {
        ValueSuffix(s, at);
        return None;
      }
      result := result + positionValue;
      index := index + 1;
    }
    assert s[|s| - index..] == s;
    return Some(result);
  }

  /** `decode(encode(n)) == Some(n)` for every u128 n (in particular `decode("") == Some(0)`). */
  lemma DecodeEncode(n: U128)
    ensures Decoded(Encoded(n)) == Some(n)
  {
    EncodedShape(n);
    EncodedValue(n);
  }

  /** Any character outside the alphabet makes `decode` fail. */
  lemma DecodeRejectsForeign(s: string, i: nat)
    requires i < |s| && s[i] !in Alphabet
    ensures Decoded(s) == None
  {
    PositionInAlphabet(s[i]);
  }

  // ---- `decode` as written: `62_u128.pow(index)` is not checked ----

  /**
   * The loop of `decode` as written, from the back of `s`: the power of 62
   * wraps modulo 2^128 (a release build) while the product and the sum are
   * checked.
   */
  function DecodeAsWrittenFrom(s: string, index: nat, result: nat): Option<nat>
    decreases |s|
  {
    if s == [] then Some(result)
    else
      match Position(s[|s| - 1])
      case None => None
      case Some(position) =>
        var positionValue := position * (Pow62(index) % U128_LIMIT);
        if positionValue >= U128_LIMIT || result + positionValue >= U128_LIMIT then None
        else DecodeAsWrittenFrom(s[..|s| - 1], index + 1, result + positionValue)
  }

  function DecodeAsWritten(s: string): Option<nat> {
    DecodeAsWrittenFrom(s, 0, 0)
  }

  function Zeros(k: nat): (z: string)
    ensures |z| == k && forall i :: 0 <= i < k ==> z[i] == '0'
  {
    seq(k, _ => '0')
  }

  lemma {:induction false} AsWrittenSkipsZeros(p: string, k: nat, index: nat, result: nat)
    requires result < U128_LIMIT
    ensures DecodeAsWrittenFrom(p + Zeros(k), index, result) == DecodeAsWrittenFrom(p, index + k, result)
  {
    if k > 0 {
      var s := p + Zeros(k);
      assert s[|s| - 1] == '0' && s[..|s| - 1] == p + Zeros(k - 1);
      assert Position('0') == Some(0);
      assert 0 * (Pow62(index) % U128_LIMIT) == 0;
      assert DecodeAsWrittenFrom(s, index, result) == DecodeAsWrittenFrom(p + Zeros(k - 1), index + 1, result);
      AsWrittenSkipsZeros(p, k - 1, index + 1, result);
    } else {
      assert p + Zeros(k) == p;
    }
  }

  lemma {:induction false} ValueOfZeros(k: nat)
    ensures Value(Zeros(k)) == 0
  {
    if k > 0 {
      assert Zeros(k)[1..] == Zeros(k - 1);
      ValueOfZeros(k - 1);
    }
  }

  /**
   * "1" followed by 22 zeros denotes 62^22, which exceeds 2^128: `decode` is
   * meant to return None, but the wrapped power lets it return 62^22 mod 2^128.
   */
  lemma AsWrittenAcceptsOverflow()
    ensures Decoded("1" + Zeros(22)) == None
    ensures DecodeAsWritten("1" + Zeros(22)) == Some(Pow62(22) % U128_LIMIT)
    ensures Pow62(22) % U128_LIMIT == 325827079356091156046639285162949476352
  {
    var s := "1" + Zeros(22);
    Pow62Add(11, 11);
    assert Pow62(11) == 52036560683837093888;
    assert Pow62(22) == 2707803647802660400290261537185326956544;
    AsWrittenSkipsZeros("1", 22, 0, 0);
    assert s[1..] == Zeros(22);
    ValueOfZeros(22);
    assert Digit('1') == 1;
    assert Value(s) == Pow62(22);
  }
}
