// The check digits of bank accounts (MOD 97-10 of ISO/IEC 7064, as ISO 13616-1 uses
// it) and of payment cards (annex B of ISO/IEC 7812-1).
module Checksums {
  import opened Wrappers

  const U32_LIMIT := 0x1_0000_0000

  predicate IsSpace(c: char) { c == ' ' || c == '\t' || c == '\n' || c == '\r' || c == 0x0C as char }

  predicate IsDigit(c: char) { '0' <= c <= '9' }

  predicate IsUpper(c: char) { 'A' <= c <= 'Z' }

  function Upper(c: char): char { if 'a' <= c <= 'z' then (c as int - 32) as char else c }

  // Without white space, in capitals.
  function Compact(s: string): string {
    if s == "" then "" else (if IsSpace(s[0]) then "" else [Upper(s[0])]) + Compact(s[1..])
  }

  predicate AllAlphanumeric(s: string) {
    forall i :: 0 <= i < |s| ==> IsDigit(s[i]) || IsUpper(s[i])
  }

  predicate WellFormed(s: string) {
    15 <= |s| <= 34 && IsUpper(s[0]) && IsUpper(s[1]) && IsDigit(s[2]) && IsDigit(s[3]) && AllAlphanumeric(s)
  }

  // Letters count from 10.
  function Value(c: char): nat
    requires IsDigit(c) || IsUpper(c)
  {
    if IsDigit(c) then c as int - '0' as int else c as int - 'A' as int + 10
  }

  function Shift(c: char): nat { if IsDigit(c) then 10 else 100 }

  // The number that the characters spell, a letter as two digits.
  function Number(s: string): nat
    requires AllAlphanumeric(s)
  {
    if s == "" then 0
    else
      var front, last := s[..|s| - 1], s[|s| - 1];
      Number(front) * Shift(last) + Value(last)
  }

  function Rearranged(s: string): string
    requires |s| >= 4
  {
    s[4..] + s[..4]
  }

  predicate ValidIban(candidate: string) {
    var s := Compact(candidate);
    WellFormed(s) && Number(Rearranged(s)) % 97 == 1
  }

  lemma ModStep(n: nat, shift: nat, value: nat)
    ensures (n % 97 * shift + value) % 97 == (n * shift + value) % 97
  {
    var q, r := n / 97, n % 97;
    assert n * shift == (97 * q + r) * shift == 97 * (q * shift) + r * shift;
    assert (97 * (q * shift) + (r * shift + value)) % 97 == (r * shift + value) % 97;
  }

  // One character of the streaming remainder; the intermediate value fits in 32 bits.
  lemma RemainderStep(s: string, i: nat)
    requires AllAlphanumeric(s) && i < |s|
    ensures var grown := Number(s[..i]) % 97 * Shift(s[i]) + Value(s[i]);
            grown < U32_LIMIT && Number(s[..i + 1]) % 97 == grown % 97
  {
    assert s[..i + 1][..i] == s[..i];
    ModStep(Number(s[..i]), Shift(s[i]), Value(s[i]));
  }

  lemma NoNumber()
    ensures Number("") == 0
  {
  }

  // The remainder is kept small along the way; no step leaves 32 bits.
  method IsValidIban(candidate: string) returns (valid: bool)
    ensures valid == ValidIban(candidate)
    ensures var s := Compact(candidate);
            valid <==>
            && 15 <= |s| <= 34 && 'A' <= s[0] <= 'Z' && 'A' <= s[1] <= 'Z' && '0' <= s[2] <= '9' && '0' <= s[3] <= '9'
            && (forall i :: 0 <= i < |s| ==> '0' <= s[i] <= '9' || 'A' <= s[i] <= 'Z')
            && Number(s[4..] + s[..4]) % 97 == 1
  {
    hide Number, Compact;
    var compact := Compact(candidate);
    if !WellFormed(compact) {
      return false;
    }
    var rearranged := Rearranged(compact);
    var remainder: nat := 0;
    NoNumber();
    assert rearranged[..0] == "";
    for i := 0 to |rearranged|
      invariant remainder == Number(rearranged[..i]) % 97
    {
      var c := rearranged[i];
      RemainderStep(rearranged, i);
      if IsDigit(c) {
        remainder := (remainder * 10 + Value(c)) % 97;
      } else {
        remainder := (remainder * 100 + Value(c)) % 97;
      }
    }
    assert rearranged[..|rearranged|] == rearranged;
    valid := remainder == 1;
  }

  // ---- One wrong character -------------------------------------------------------------

  predicate SameClass(a: char, b: char) { (IsDigit(a) && IsDigit(b)) || (IsUpper(a) && IsUpper(b)) }

  // Texts that differ in one place, by a digit for a digit or a letter for a letter.
  ghost predicate DifferAt(s: string, t: string, p: nat) {
    |s| == |t| && p < |s| && s[p] != t[p] && SameClass(s[p], t[p])
    && forall i :: 0 <= i < |s| && i != p ==> s[i] == t[i]
  }

  // Ten has an inverse modulo 97, so a factor of ten never makes a multiple of 97.
  lemma TenIsInvertible(x: int)
    requires (10 * x) % 97 == 0
    ensures x % 97 == 0
  {
    var q := 10 * x / 97;
    assert 10 * x == 97 * q;
    assert x == 680 * x - 679 * x == 97 * (68 * q - 7 * x);
  }

  lemma ShiftKeepsDifference(d: int, c: char)
    requires d % 97 != 0
    ensures (d * Shift(c)) % 97 != 0
  {
    if (d * Shift(c)) % 97 == 0 {
      if IsDigit(c) {
        assert d * Shift(c) == 10 * d;
        TenIsInvertible(d);
      } else {
        assert d * Shift(c) == 10 * (10 * d);
        TenIsInvertible(10 * d);
        TenIsInvertible(d);
      }
    }
  }

  lemma SameClassValues(a: char, b: char)
    requires SameClass(a, b) && a != b
    ensures (Value(a) - Value(b)) % 97 != 0 && Shift(a) == Shift(b)
  {
    assert -25 <= Value(a) - Value(b) <= 25 && Value(a) != Value(b);
  }

  // The numbers of two such texts differ modulo 97.
  lemma {:induction false} OneChangeShows(s: string, t: string, p: nat)
    requires AllAlphanumeric(s) && AllAlphanumeric(t) && DifferAt(s, t, p)
    ensures (Number(s) - Number(t)) % 97 != 0
  {
    hide Number, Value, Shift, IsDigit, IsUpper;
    var s', t' := s[..|s| - 1], t[..|t| - 1];
    var c, d := s[|s| - 1], t[|t| - 1];
    LastCharacter(s);
    LastCharacter(t);
    if p == |s| - 1 {
      assert s' == t';
      SameClassValues(c, d);
      assert Number(s) - Number(t) == Value(c) - Value(d);
    } else {
      OneChangeShows(s', t', p);
      ShiftKeepsDifference(Number(s') - Number(t'), c);
      FrontDifference(Number(s'), Number(t'), Shift(c), Value(c));
    }
  }

  lemma LastCharacter(s: string)
    requires AllAlphanumeric(s) && s != ""
    ensures Number(s) == Number(s[..|s| - 1]) * Shift(s[|s| - 1]) + Value(s[|s| - 1])
  {
    hide Value, Shift;
  }

  lemma FrontDifference(x: int, y: int, k: int, v: int)
    ensures (x * k + v) - (y * k + v) == (x - y) * k
  {
  }

  lemma DifferentRemainders(m: nat, n: nat)
    requires (m - n) % 97 != 0
    ensures m % 97 != n % 97
  {
  }

  // So a valid account number is never valid after one such change.
  lemma OneChangeIsDetected(s: string, t: string, p: nat)
    requires WellFormed(s) && WellFormed(t) && DifferAt(s, t, p)
    requires Number(Rearranged(s)) % 97 == 1
    ensures Number(Rearranged(t)) % 97 != 1
  {
    var q := if p < 4 then p + |s| - 4 else p - 4;
    assert DifferAt(Rearranged(s), Rearranged(t), q);
    hide Number;
    OneChangeShows(Rearranged(s), Rearranged(t), q);
    DifferentRemainders(Number(Rearranged(s)), Number(Rearranged(t)));
  }

  lemma {:induction false} CompactConcat(a: string, b: string)
    ensures Compact(a + b) == Compact(a) + Compact(b)
  {
    hide IsSpace, Upper;
    if a == "" {
      assert a + b == b;
    } else {
      assert (a + b)[1..] == a[1..] + b && (a + b)[0] == a[0];
      CompactConcat(a[1..], b);
      Regroup(if IsSpace(a[0]) then "" else [Upper(a[0])], Compact(a[1..]), Compact(b));
    }
  }

  lemma CompactAround(before: string, c: char, after: string)
    requires !IsSpace(c)
    ensures Compact(before + [c] + after) == Compact(before) + [Upper(c)] + Compact(after)
  {
    CompactConcat(before + [c], after);
    CompactConcat(before, [c]);
    assert Compact([c]) == [Upper(c)] + Compact("");
    hide IsSpace, Upper;
  }

  // Typing one digit for another or one letter for another, in either case and with any
  // white space around, is always detected.
  lemma WrongCharacterIsDetected(before: string, c: char, d: char, after: string)
    requires SameClass(Upper(c), Upper(d)) && Upper(c) != Upper(d)
    ensures !(ValidIban(before + [c] + after) && ValidIban(before + [d] + after))
  {
    CompactAround(before, c, after);
    CompactAround(before, d, after);
    hide Compact, Number, Rearranged, IsSpace, Upper;
    var s, t := before + [c] + after, before + [d] + after;
    if ValidIban(s) && WellFormed(Compact(t)) {
      hide WellFormed;
      OneChangeIsDetected(Compact(s), Compact(t), |Compact(before)|);
    }
  }

  lemma TwoMore(front: string, c: char, d: char)
    requires AllAlphanumeric(front) && IsDigit(c) && IsDigit(d)
    ensures AllAlphanumeric(front + [c, d])
    ensures Number(front + [c, d]) == 100 * Number(front) + 10 * (c as int - '0' as int) + (d as int - '0' as int)
  {
    var all := front + [c, d];
    assert all[..|all| - 1] == front + [c] && (front + [c])[..|front|] == front;
    LastCharacter(all);
    LastCharacter(front + [c]);
    hide Number;
  }

  // The check digits of the standard, 98 less the remainder of the number with 00 in
  // their place, make a well-formed account number valid.
  lemma CheckDigitsAreValid(country: string, account: string, c: char, d: char)
    requires |country| == 2 && IsDigit(c) && IsDigit(d) && WellFormed(country + "00" + account)
    requires 10 * (c as int - '0' as int) + (d as int - '0' as int)
          == 98 - Number(Rearranged(country + "00" + account)) % 97
    ensures ValidIban(country + [c, d] + account)
  {
    var s, t := country + "00" + account, country + [c, d] + account;
    var front := account + country;
    assert s[4..] == account == t[4..] && s[..4] == country + "00" && t[..4] == country + [c, d];
    assert Rearranged(s) == front + ['0', '0'] && Rearranged(t) == front + [c, d];
    assert AllAlphanumeric(front) by {
      forall i | 0 <= i < |front| ensures IsDigit(front[i]) || IsUpper(front[i]) {
        if i < |account| {
          assert front[i] == s[i + 4];
        } else {
          assert front[i] == s[i - |account|];
        }
      }
    }
    TwoMore(front, '0', '0');
    TwoMore(front, c, d);
    WellFormedAgain(country, account, c, d);
    CompactIsSelf(t);
    hide Number, Rearranged, WellFormed, Compact;
    OneLeft(Number(front), 10 * (c as int - '0' as int) + (d as int - '0' as int));
  }

  // The Norwegian example of the registry of ISO 13616.
  lemma ExampleIsValid()
    ensures ValidIban("NO9386011117947")
  {
    var iban, s := "NO9386011117947", "86011117947NO93";
    assert WellFormed(iban) && Rearranged(iban) == s;
    CompactIsSelf(iban);
    hide *;
    ExampleRemainder(s);
    ValidBy(iban, s);
  }

  lemma ValidBy(iban: string, s: string)
    requires WellFormed(iban) && Compact(iban) == iban && Rearranged(iban) == s
    requires AllAlphanumeric(s) && Number(s) % 97 == 1
    ensures ValidIban(iban)
  {
  }

  lemma ExampleRemainder(s: string)
    requires s == "86011117947NO93"
    ensures AllAlphanumeric(s) && Number(s) % 97 == 1
  {
    hide Number;
    assert |s| == 15 && AllAlphanumeric(s);
    assert s[0] == '8' && s[1] == '6' && s[2] == '0' && s[3] == '1' && s[4] == '1' && s[5] == '1' && s[6] == '1';
    assert s[7] == '7' && s[8] == '9' && s[9] == '4' && s[10] == '7' && s[11] == 'N' && s[12] == 'O';
    assert s[13] == '9' && s[14] == '3';
    ExampleFirst(s);
    ExampleRest(s);
    assert s[..15] == s;
  }

  lemma ExampleFirst(s: string)
    requires AllAlphanumeric(s) && |s| == 15
    requires s[0] == '8' && s[1] == '6' && s[2] == '0' && s[3] == '1' && s[4] == '1' && s[5] == '1' && s[6] == '1'
    ensures Number(s[..7]) % 97 == 24
  {
    NoNumber();
    hide Number;
    assert s[..0] == "";
    NextRemainder(s, 0, 0);
    NextRemainder(s, 1, 8);
    NextRemainder(s, 2, 86);
    NextRemainder(s, 3, 84);
    NextRemainder(s, 4, 65);
    NextRemainder(s, 5, 69);
    NextRemainder(s, 6, 12);
  }

  lemma ExampleRest(s: string)
    requires AllAlphanumeric(s) && |s| == 15 && Number(s[..7]) % 97 == 24
    requires s[7] == '7' && s[8] == '9' && s[9] == '4' && s[10] == '7' && s[11] == 'N' && s[12] == 'O'
    requires s[13] == '9' && s[14] == '3'
    ensures Number(s[..15]) % 97 == 1
  {
    hide Number;
    NextRemainder(s, 7, 24);
    NextRemainder(s, 8, 53);
    NextRemainder(s, 9, 54);
    NextRemainder(s, 10, 59);
    NextRemainder(s, 11, 15);
    NextRemainder(s, 12, 68);
    NextRemainder(s, 13, 34);
    NextRemainder(s, 14, 58);
  }

  lemma NextRemainder(s: string, i: nat, r: nat)
    requires AllAlphanumeric(s) && i < |s| && Number(s[..i]) % 97 == r
    ensures Number(s[..i + 1]) % 97 == (r * Shift(s[i]) + Value(s[i])) % 97
  {
    hide Number;
    RemainderStep(s, i);
  }

  lemma OneLeft(n: nat, k: int)
    requires k == 98 - (100 * n) % 97
    ensures (100 * n + k) % 97 == 1
  {
    var q := 100 * n / 97;
    assert 100 * n + k == 97 * (q + 1) + 1;
  }

  lemma WellFormedAgain(country: string, account: string, c: char, d: char)
    requires |country| == 2 && IsDigit(c) && IsDigit(d) && WellFormed(country + "00" + account)
    ensures WellFormed(country + [c, d] + account)
  {
    var s, t := country + "00" + account, country + [c, d] + account;
    forall i | 0 <= i < |t| ensures IsDigit(t[i]) || IsUpper(t[i]) {
      assert i < 2 || i >= 4 ==> t[i] == s[i];
    }
    assert s[0] == t[0] && s[1] == t[1];
  }

  lemma {:induction false} CompactIsSelf(s: string)
    requires AllAlphanumeric(s)
    ensures Compact(s) == s
  {
    if s != "" {
      assert IsDigit(s[0]) || IsUpper(s[0]);
      assert forall i :: 0 <= i < |s| - 1 ==> s[1..][i] == s[i + 1];
      CompactIsSelf(s[1..]);
      assert [s[0]] + s[1..] == s;
    }
  }

  // ---- Cards ------------------------------------------------------------------------------

  type Digit = d: int | 0 <= d <= 9

  function Digits(s: string): seq<Digit> {
    if s == "" then []
    else DigitOf(s[0]) + Digits(s[1..])
  }

  function DigitOf(c: char): seq<Digit> {
    if IsDigit(c) then [c as int - '0' as int] else []
  }

  function Weighted(d: Digit, doubled: bool): Digit {
    if !doubled then d else if 2 * d > 9 then 2 * d - 9 else 2 * d
  }

  // The sum from the right, every second digit doubled.
  function LuhnSum(d: seq<Digit>, doubled: bool): nat {
    if d == [] then 0
    else
      var last: int := Weighted(d[|d| - 1], doubled);
      LuhnSum(d[..|d| - 1], !doubled) + last
  }

  predicate ValidCardNumber(candidate: string) {
    var d := Digits(candidate);
    13 <= |d| <= 19 && (exists i :: 0 <= i < |d| && d[i] != d[0]) && LuhnSum(d, false) % 10 == 0
  }

  // Adding up from the right, with the place of each digit telling its weight.
  method IsValidCardNumber(candidate: string) returns (valid: bool)
    ensures valid == ValidCardNumber(candidate)
  {
    hide LuhnSum, Weighted;
    var digits := Digits(candidate);
    if !(13 <= |digits| <= 19) || forall i :: 0 <= i < |digits| ==> digits[i] == digits[0] {
      return false;
    }
    var sum := 0;
    assert digits[..|digits|] == digits;
    for index := 0 to |digits|
      invariant sum + LuhnSum(digits[..|digits| - index], index % 2 == 1) == LuhnSum(digits, false)
    {
      LastDigit(digits[..|digits| - index], index % 2 == 1);
      assert digits[..|digits| - index][..|digits| - index - 1] == digits[..|digits| - (index + 1)];
      sum := sum + Weighted(digits[|digits| - 1 - index], index % 2 == 1);
    }
    NoDigits();
    assert digits[..0] == [];
    valid := sum % 10 == 0;
  }

  lemma LastDigit(d: seq<Digit>, doubled: bool)
    requires d != []
    ensures LuhnSum(d, doubled) == LuhnSum(d[..|d| - 1], !doubled) + Weighted(d[|d| - 1], doubled)
  {
  }

  lemma NoDigits()
    ensures LuhnSum([], false) == 0 && LuhnSum([], true) == 0
  {
  }

  // The weights are a permutation of the digits.
  lemma WeightsDiffer(a: Digit, b: Digit, doubled: bool)
    requires a != b
    ensures Weighted(a, doubled) != Weighted(b, doubled)
  {
  }

  // One wrong digit anywhere changes the sum modulo 10.
  lemma {:induction false} OneDigitShows(a: seq<Digit>, b: seq<Digit>, p: nat, doubled: bool)
    requires |a| == |b| && p < |a| && a[p] != b[p] && forall i :: 0 <= i < |a| && i != p ==> a[i] == b[i]
    ensures (LuhnSum(a, doubled) - LuhnSum(b, doubled)) % 10 != 0
  {
    hide LuhnSum, Weighted;
    var a', b' := a[..|a| - 1], b[..|b| - 1];
    LastDigit(a, doubled);
    LastDigit(b, doubled);
    if p == |a| - 1 {
      assert a' == b';
      WeightsDiffer(a[p], b[p], doubled);
    } else {
      OneDigitShows(a', b', p, !doubled);
    }
  }

  // So a sum that passes never passes after one wrong digit.
  lemma OneDigitIsDetected(a: seq<Digit>, b: seq<Digit>, p: nat)
    requires |a| == |b| && p < |a| && a[p] != b[p] && forall i :: 0 <= i < |a| && i != p ==> a[i] == b[i]
    requires LuhnSum(a, false) % 10 == 0
    ensures LuhnSum(b, false) % 10 != 0
  {
    OneDigitShows(a, b, p, false);
    hide LuhnSum;
  }

  // From the right: the first digit and every second one as they are, the others doubled
  // with the digits of the double added up.
  function SumFromRight(d: seq<Digit>, n: nat): nat
    requires n <= |d|
  {
    if n == 0 then 0
    else
      var x: int := d[|d| - n];
      SumFromRight(d, n - 1) + if n % 2 == 1 then x else (2 * x) / 10 + (2 * x) % 10
  }

  lemma {:induction false} LuhnFromRight(d: seq<Digit>, n: nat)
    requires n <= |d|
    ensures LuhnSum(d, false) == SumFromRight(d, n) + LuhnSum(d[..|d| - n], n % 2 == 1)
  {
    hide LuhnSum;
    if n == 0 {
      assert d[..|d|] == d;
    } else {
      LuhnFromRight(d, n - 1);
      LastDigit(d[..|d| - (n - 1)], (n - 1) % 2 == 1);
      assert d[..|d| - (n - 1)][..|d| - n] == d[..|d| - n];
    }
  }

  // A candidate is a card number exactly when it has 13 to 19 digits, not all the same,
  // whose sum from the right is a multiple of ten.
  lemma CardNumberIff(candidate: string)
    ensures var d := Digits(candidate);
            ValidCardNumber(candidate) <==>
            13 <= |d| <= 19 && (exists i, j :: 0 <= i < j < |d| && d[i] != d[j]) && SumFromRight(d, |d|) % 10 == 0
  {
    var d := Digits(candidate);
    LuhnFromRight(d, |d|);
    NoDigits();
    assert d[..0] == [];
    hide LuhnSum, SumFromRight, Digits;
    if i :| 0 <= i < |d| && d[i] != d[0] {
      assert 0 < i && d[0] != d[i];
    }
    if i, j :| 0 <= i < j < |d| && d[i] != d[j] {
      assert d[i] != d[0] || d[j] != d[0];
    }
  }

  // Two candidates whose digits differ in one place are never both valid.
  lemma CardsDifferVisibly(s: string, t: string, p: nat)
    requires |Digits(s)| == |Digits(t)| && p < |Digits(s)| && Digits(s)[p] != Digits(t)[p]
    requires forall i :: 0 <= i < |Digits(s)| && i != p ==> Digits(s)[i] == Digits(t)[i]
    ensures !(ValidCardNumber(s) && ValidCardNumber(t))
  {
    hide LuhnSum, Digits;
    if ValidCardNumber(s) {
      OneDigitIsDetected(Digits(s), Digits(t), p);
    }
  }

  lemma {:induction false} DigitsConcat(a: string, b: string)
    ensures Digits(a + b) == Digits(a) + Digits(b)
  {
    hide DigitOf;
    if a == "" {
      assert a + b == b;
    } else {
      assert (a + b)[1..] == a[1..] + b && (a + b)[0] == a[0];
      DigitsConcat(a[1..], b);
      Regroup(DigitOf(a[0]), Digits(a[1..]), Digits(b));
    }
  }

  lemma OneDigit(c: char)
    requires IsDigit(c)
    ensures DigitOf(c) == [c as int - '0' as int] && Digits([c]) == DigitOf(c)
  {
  }

  lemma DigitsAround(before: string, c: char, after: string)
    ensures IsDigit(c) ==> Digits(before + [c] + after) == Digits(before) + [c as int - '0' as int] + Digits(after)
  {
    hide Digits;
    if IsDigit(c) {
      OneDigit(c);
      DigitsConcat(before + [c], after);
      DigitsConcat(before, [c]);
    }
  }

  // Typing one digit for another, with any separators around, is always detected.
  lemma WrongDigitIsDetected(before: string, c: char, d: char, after: string)
    requires IsDigit(c) && IsDigit(d) && c != d
    ensures !(ValidCardNumber(before + [c] + after) && ValidCardNumber(before + [d] + after))
  {
    hide Digits, ValidCardNumber;
    DigitsAround(before, c, after);
    DigitsAround(before, d, after);
    CardsDifferVisibly(before + [c] + after, before + [d] + after, |Digits(before)|);
  }
}
