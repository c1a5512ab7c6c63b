/** The 26-character Crockford Base32 form of a 128-bit number, and its order. */
module Ulid {
  import opened Common

  const ALPHABET: string := "0123456789ABCDEFGHJKMNPQRSTVWXYZ"

  const WIDTH := 26

  /** 2^128 and the room 26 characters leave, 2^130. */
  const LIMIT: nat := 0x1_0000_0000_0000_0000_0000_0000_0000_0000

  predicate IsDigits(digits: seq<nat>) {
    forall i :: 0 <= i < |digits| ==> digits[i] < 32
  }

  function Power(n: nat): nat {
    if n == 0 then 1 else 32 * Power(n - 1)
  }

  /** The last `width` base-32 digits of `n`, most significant first. */
  function Digits(n: nat, width: nat): (digits: seq<nat>)
    ensures |digits| == width && IsDigits(digits)
  {
    if width == 0 then [] else Digits(n / 32, width - 1) + [n % 32]
  }

  function Value(digits: seq<nat>): nat {
    if digits == [] then 0 else Value(digits[..|digits| - 1]) * 32 + digits[|digits| - 1]
  }

  /** Reading back what was written. */
  lemma {:induction false} ValueOfDigits(n: nat, width: nat)
    requires n < Power(width)
    ensures Value(Digits(n, width)) == n
  {
    if width > 0 {
      ValueOfDigits(n / 32, width - 1);
      assert Digits(n, width)[..width - 1] == Digits(n / 32, width - 1);
    }
  }

  /** Writing what was read. */
  lemma {:induction false} DigitsOfValue(digits: seq<nat>)
    requires IsDigits(digits)
    ensures Digits(Value(digits), |digits|) == digits && Value(digits) < Power(|digits|)
  {
    if digits != [] {
      var n := |digits| - 1;
      DigitsOfValue(digits[..n]);
      assert digits == digits[..n] + [digits[n]];
    }
  }

  lemma PowerIsRoom()
    ensures Power(25) == 0x2000_0000_0000_0000_0000_0000_0000_0000 && Power(WIDTH) == 4 * LIMIT
  {
    assert Power(5) == 0x200_0000;
    assert Power(10) == 0x4_0000_0000_0000;
    assert Power(15) == 0x800_0000_0000_0000_0000;
    assert Power(20) == 0x10_0000_0000_0000_0000_0000_0000;
  }

  // ------------------------------------------------------------------ lexicographic order

  ghost predicate LessAt(a: seq<nat>, b: seq<nat>, k: int) {
    0 <= k < |a| && k < |b| && a[..k] == b[..k] && a[k] < b[k]
  }

  ghost predicate Before(a: seq<nat>, b: seq<nat>) {
    exists k :: LessAt(a, b, k)
  }

  /** The strings agree up to `k`, where the first has the lesser character. */
  ghost predicate StringLessAt(a: string, b: string, k: int) {
    0 <= k < |a| && k < |b| && a[..k] == b[..k] && a[k] < b[k]
  }

  /** The order of strings of which neither is a prefix of the other. */
  ghost predicate StringBefore(a: string, b: string) {
    exists k :: StringLessAt(a, b, k)
  }

  lemma BeforeSnoc(a: seq<nat>, b: seq<nat>)
    requires |a| == |b| > 0
    ensures var n := |a| - 1;
            Before(a, b) <==> Before(a[..n], b[..n]) || (a[..n] == b[..n] && a[n] < b[n])
  {
    var n := |a| - 1;
    if k :| LessAt(a, b, k) {
      assert k < n ==> a[..n][..k] == a[..k] && b[..n][..k] == b[..k];
      assert k < n ==> LessAt(a[..n], b[..n], k);
    }
    if k :| LessAt(a[..n], b[..n], k) {
      assert a[..n][..k] == a[..k] && b[..n][..k] == b[..k];
      assert LessAt(a, b, k);
    }
    if a[..n] == b[..n] && a[n] < b[n] { assert LessAt(a, b, n); }
  }

  /** Among numerals of one width, lexicographic order is the order of the numbers. */
  lemma {:induction false} BeforeIsLess(a: seq<nat>, b: seq<nat>)
    requires |a| == |b| && IsDigits(a) && IsDigits(b)
    ensures Before(a, b) <==> Value(a) < Value(b)
  {
    if a != [] {
      var n := |a| - 1;
      BeforeSnoc(a, b);
      BeforeIsLess(a[..n], b[..n]);
      DigitsOfValue(a[..n]);
      DigitsOfValue(b[..n]);
    }
  }

  // ------------------------------------------------------------------------- characters

  /** A character class of the event identifier pattern: `[0-9A-HJKMNP-TV-Z]`. */
  predicate InClass(c: char) {
    '0' <= c <= '9' || 'A' <= c <= 'H' || c == 'J' || c == 'K' || c == 'M' || c == 'N' || 'P' <= c <= 'T'
    || 'V' <= c <= 'Z'
  }

  lemma AlphabetIncreases(i: nat, j: nat)
    requires i < j < 32
    ensures |ALPHABET| == 32 && ALPHABET[i] < ALPHABET[j]
  {
    assert forall k :: 0 <= k < 31 ==> ALPHABET[k] < ALPHABET[k + 1];
    if i + 1 < j { AlphabetIncreases(i, j - 1); }
  }

  lemma AlphabetIsTheClass(d: nat)
    requires d < 32
    ensures |ALPHABET| == 32 && InClass(ALPHABET[d]) && (d < 8 <==> ALPHABET[d] <= '7')
  {
    assert forall k :: 0 <= k < 32 ==> InClass(ALPHABET[k]);
    assert ALPHABET[7] == '7';
    if d < 7 { AlphabetIncreases(d, 7); }
    if d > 7 { AlphabetIncreases(7, d); }
  }

  function Code(digits: seq<nat>): (s: string)
    requires IsDigits(digits)
    ensures |s| == |digits|
    ensures forall i :: 0 <= i < |s| ==> s[i] == ALPHABET[digits[i]]
  {
    assert |ALPHABET| == 32;
    seq(|digits|, i requires 0 <= i < |digits| => ALPHABET[digits[i]])
  }

  /** The canonical form of a number below 2^128. */
  function Canonical(n: nat): string {
    Code(Digits(n, WIDTH))
  }

  /** The code orders strings as the digits are ordered. */
  lemma CodeKeepsOrder(a: seq<nat>, b: seq<nat>)
    requires IsDigits(a) && IsDigits(b) && |a| == |b|
    ensures StringBefore(Code(a), Code(b)) <==> Before(a, b)
  {
    if k :| LessAt(a, b, k) {
      AlphabetIncreases(a[k], b[k]);
      forall i | 0 <= i < k ensures Code(a)[i] == Code(b)[i] { assert a[..k][i] == b[..k][i]; }
      assert Code(a)[..k] == Code(b)[..k];
      assert StringLessAt(Code(a), Code(b), k);
    }
    if k :| StringLessAt(Code(a), Code(b), k) {
      forall i | 0 <= i < k ensures a[i] == b[i] {
        assert Code(a)[..k][i] == Code(b)[..k][i];
        CodeIsInjective(a[i], b[i]);
      }
      assert a[..k] == b[..k];
      if b[k] < a[k] { AlphabetIncreases(b[k], a[k]); }
      assert LessAt(a, b, k);
    }
  }

  lemma CodeIsInjective(i: nat, j: nat)
    requires i < 32 && j < 32
    ensures |ALPHABET| == 32 && (ALPHABET[i] == ALPHABET[j] <==> i == j)
  {
    if i < j { AlphabetIncreases(i, j); }
    if j < i { AlphabetIncreases(j, i); }
  }

  /** The encoding keeps order, and so tells different numbers apart. */
  lemma EncodingKeepsOrder(x: nat, y: nat)
    requires x < LIMIT && y < LIMIT
    ensures StringBefore(Canonical(x), Canonical(y)) <==> x < y
    ensures Canonical(x) == Canonical(y) <==> x == y
  {
    PowerIsRoom();
    ValueOfDigits(x, WIDTH);
    ValueOfDigits(y, WIDTH);
    var a, b := Digits(x, WIDTH), Digits(y, WIDTH);
    BeforeIsLess(a, b);
    CodeKeepsOrder(a, b);
    if Canonical(x) == Canonical(y) {
      forall i | 0 <= i < WIDTH ensures a[i] == b[i] {
        assert Canonical(x)[i] == Canonical(y)[i];
        CodeIsInjective(a[i], b[i]);
      }
      assert a == b;
    }
  }

  ghost predicate IsUlid(s: string) {
    |s| == WIDTH && '0' <= s[0] <= '7' && forall i :: 0 <= i < WIDTH ==> InClass(s[i])
  }

  lemma {:induction false} LeadingDigits(n: nat, width: nat, room: nat)
    requires n < room * Power(width)
    ensures |Digits(n, width + 1)| == width + 1 && (room <= 32 ==> Digits(n, width + 1)[0] < room)
    decreases width
  {
    if width > 0 {
      assert room * Power(width) == 32 * (room * Power(width - 1));
      LeadingDigits(n / 32, width - 1, room);
      assert Digits(n, width + 1) == Digits(n / 32, width) + [n % 32];
    } else {
      assert Digits(n, 1) == Digits(n / 32, 0) + [n % 32];
    }
  }

  /** Every 128-bit number is encoded in 26 characters of the pattern, the first at most 7. */
  lemma EncodingIsWellFormed(n: nat)
    requires n < LIMIT
    ensures IsUlid(Canonical(n))
  {
    PowerIsRoom();
    LeadingDigits(n, 25, 8);
    var digits := Digits(n, WIDTH);
    forall i | 0 <= i < WIDTH ensures InClass(Canonical(n)[i]) { AlphabetIsTheClass(digits[i]); }
    AlphabetIsTheClass(digits[0]);
    if digits[0] > 0 { AlphabetIncreases(0, digits[0]); }
    assert ALPHABET[0] == '0';
  }

  // -------------------------------------------------------------------------- decoding

  /** The digit a character stands for. */
  function DigitOf(c: char): (d: Option<nat>)
    ensures d.Some? ==> d.value < 32
  {
    Position(c, 32)
  }

  function Position(c: char, n: nat): (d: Option<nat>)
    requires n <= |ALPHABET|
    ensures d.Some? ==> d.value < n && ALPHABET[d.value] == c
    ensures d.None? ==> forall i :: 0 <= i < n ==> ALPHABET[i] != c
  {
    if n == 0 then None else if ALPHABET[n - 1] == c then Some(n - 1) else Position(c, n - 1)
  }

  function Decoded(s: string): (digits: Option<seq<nat>>)
    ensures digits.Some? ==> |digits.value| == |s| && IsDigits(digits.value)
  {
    if s == [] then Some([])
    else
      var earlier := Decoded(s[..|s| - 1]);
      var d := DigitOf(s[|s| - 1]);
      if earlier.Some? && d.Some? then Some(earlier.value + [d.value]) else None
  }

  lemma {:induction false} DecodedCode(digits: seq<nat>)
    requires IsDigits(digits)
    ensures Decoded(Code(digits)) == Some(digits)
  {
    if digits != [] {
      var n := |digits| - 1;
      DecodedCode(digits[..n]);
      assert Code(digits)[..n] == Code(digits[..n]);
      assert Code(digits)[n] == ALPHABET[digits[n]];
      var d := DigitOf(ALPHABET[digits[n]]);
      assert d.Some?;
      CodeIsInjective(d.value, digits[n]);
      assert digits == digits[..n] + [digits[n]];
    }
  }

  function Decode(s: string): Option<nat> {
    var digits := Decoded(s);
    if digits.Some? then Some(Value(digits.value)) else None
  }

  /** Decoding undoes encoding. */
  lemma DecodeUndoesEncode(n: nat)
    requires n < LIMIT
    ensures Decode(Canonical(n)) == Some(n)
  {
    PowerIsRoom();
    ValueOfDigits(n, WIDTH);
    DecodedCode(Digits(n, WIDTH));
  }

  // ----------------------------------------------------------------------------- the loop

  lemma CodeOfPrepended(d: nat, tail: seq<nat>)
    requires d < 32 && IsDigits(tail)
    ensures |ALPHABET| == 32 && Code([d] + tail) == [ALPHABET[d]] + Code(tail)
  {
    assert |ALPHABET| == 32;
  }

  /** `_encode_ulid`: fill the characters from the right, shifting the number five bits at a time. */
  method EncodeUlid(n: nat) returns (s: string)
    ensures s == Canonical(n)
  {
    var chars := new char[WIDTH](_ => '0');
    var number := n;
    ghost var tail: seq<nat> := [];
    var index := WIDTH;
    while index > 0
      invariant 0 <= index <= WIDTH
      invariant IsDigits(tail) && |tail| == WIDTH - index
      invariant Digits(n, WIDTH) == Digits(number, index) + tail
      invariant chars[index..] == Code(tail)
    {
      index := index - 1;
      assert |ALPHABET| == 32;
      assert Digits(number, index + 1) == Digits(number / 32, index) + [number % 32];
      Associative(Digits(number / 32, index), [number % 32], tail);
      CodeOfPrepended(number % 32, tail);
      chars[index] := ALPHABET[number % 32];
      assert chars[index..] == [chars[index]] + chars[index + 1..];
      tail := [number % 32] + tail;
      number := number / 32;
    }
    assert Digits(number, 0) + tail == tail;
    s := chars[..];
  }
}
