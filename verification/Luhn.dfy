/** The Luhn card-number check of omniai/guardrails/middleware.py, proved against the
    check-digit formula of Annex B of ISO/IEC 7812-1 and its error-detection laws. */
module Luhn {
  import opened Options

  type Digit = d: int | 0 <= d <= 9

  /** How str.isdigit and int read a character: no digit, a decimal digit, or a digit that int
      refuses, such as a superscript. */
  datatype Glyph = NoDigit | Decimal(value: Digit) | Unreadable

  /** Unicode's reading of the characters other than 0 to 9. */
  type Script = char -> Glyph

  function Read(script: Script, c: char): Glyph {
    if '0' <= c <= '9' then Decimal(c as int - '0' as int) else script(c)
  }

  predicate IsDigit(script: Script, c: char) {
    Read(script, c).Decimal?
  }

  function DigitOf(script: Script, c: char): Digit
    requires IsDigit(script, c)
  {
    Read(script, c).value
  }

  /** int raises on no character of the candidate. */
  predicate Readable(script: Script, candidate: string) {
    forall i :: 0 <= i < |candidate| ==> Read(script, candidate[i]) != Unreadable
  }

  /** The digits of a candidate, in order; separators are skipped. */
  function Digits(script: Script, candidate: string): seq<Digit> {
    if candidate == "" then []
    else if IsDigit(script, candidate[0]) then [DigitOf(script, candidate[0])] + Digits(script, candidate[1..])
    else Digits(script, candidate[1..])
  }

  /** Contribution of one digit to the loop's running total. */
  function Weighted(d: Digit, doubled: bool): nat {
    if !doubled then d else if 2 * d > 9 then 2 * d - 9 else 2 * d
  }

  /** Sum over the digits from the right; `doubled` tells whether the last one is doubled. */
  function WeightedSum(ds: seq<Digit>, doubled: bool): nat {
    if ds == [] then 0
    else Weighted(ds[|ds| - 1], doubled) + WeightedSum(ds[..|ds| - 1], !doubled)
  }

  predicate Accepts(script: Script, candidate: string) {
    var ds := Digits(script, candidate);
    Readable(script, candidate) && 13 <= |ds| <= 19 && WeightedSum(ds, false) % 10 == 0
  }

  /** The comprehension that reads the digits; None is the ValueError. */
  method ReadDigits(script: Script, candidate: string) returns (digits: Option<seq<Digit>>)
    ensures digits == if Readable(script, candidate) then Some(Digits(script, candidate)) else None
  {
    var found: seq<Digit> := [];
    var i := 0;
    while i < |candidate|
      invariant 0 <= i <= |candidate|
      invariant Readable(script, candidate[..i])
      invariant found + Digits(script, candidate[i..]) == Digits(script, candidate)
    {
      assert candidate[i..][1..] == candidate[i + 1..];
      match Read(script, candidate[i]) {
        case NoDigit =>
        case Decimal(d) =>
          assert found + ([d] + Digits(script, candidate[i + 1..])) == found + [d] + Digits(script, candidate[i + 1..]);
          found := found + [d];
        case Unreadable => return None;
      }
      i := i + 1;
    }
    assert candidate[..i] == candidate && candidate[i..] == "" && found + [] == found;
    return Some(found);
  }

  /** None is the ValueError of a character that int refuses, whatever the length. */
  method LuhnValid(script: Script, candidate: string) returns (valid: Option<bool>)
    ensures valid == if Readable(script, candidate) then Some(Accepts(script, candidate)) else None
  {
    var read := ReadDigits(script, candidate);
    if read.None? {
      return None;
    }
    var digits := read.value;
    if !(13 <= |digits| <= 19) {
      return Some(false);
    }
    var total := SumFromRight(digits);
    return Some(total % 10 == 0);
  }

  /** The loop over the reversed digits. */
  method SumFromRight(digits: seq<Digit>) returns (total: nat)
    ensures total == WeightedSum(digits, false)
  {
    total := 0;
    var idx := 0;
    assert digits[..|digits|] == digits;
    while idx < |digits|
      invariant 0 <= idx <= |digits|
      invariant total + WeightedSum(digits[..|digits| - idx], idx % 2 == 1) == WeightedSum(digits, false)
    {
      ghost var rest := digits[..|digits| - idx];
      assert rest[..|rest| - 1] == digits[..|digits| - idx - 1];
      var digit: int := digits[|digits| - 1 - idx];
      if idx % 2 == 1 {
        digit := digit * 2;
        if digit > 9 {
          digit := digit - 9;
        }
      }
      total := total + digit;
      idx := idx + 1;
    }
  }

  // ---- Annex B of ISO/IEC 7812-1 ----

  /** Sum of the decimal digits of a product of at most two digits. */
  function DigitSum(n: nat): nat
    requires n < 100
  {
    n / 10 + n % 10
  }

  /** Annex B, steps 1 and 2, over the account number without its check digit, read left to
      right: alternate digits are doubled, starting with the rightmost one. */
  function AnnexBSum(payload: seq<Digit>): nat {
    if payload == [] then 0
    else
      var d: int := payload[0];
      (if |payload| % 2 == 1 then DigitSum(2 * d) else d) + AnnexBSum(payload[1..])
  }

  /** Annex B, step 3: what must be added to reach the next number ending in 0. */
  function CheckDigit(payload: seq<Digit>): Digit {
    (10 - AnnexBSum(payload) % 10) % 10
  }

  /** Peeling a digit off the left of the weighted sum. */
  lemma {:induction false} WeightedSumCons(d: Digit, ds: seq<Digit>, doubled: bool)
    ensures WeightedSum([d] + ds, doubled)
         == Weighted(d, doubled == (|ds| % 2 == 0)) + WeightedSum(ds, doubled)
    decreases |ds|
  {
    var all := [d] + ds;
    if ds == [] {
      assert all == [d] && all[..0] == [];
    } else {
      assert all[..|all| - 1] == [d] + ds[..|ds| - 1];
      WeightedSumCons(d, ds[..|ds| - 1], !doubled);
    }
  }

  lemma DoubledDigit(d: Digit)
    ensures var n: int := d; Weighted(d, true) == DigitSum(2 * n) && Weighted(d, false) == d
  {
  }

  lemma {:induction false} WeightedIsAnnexB(payload: seq<Digit>)
    ensures WeightedSum(payload, true) == AnnexBSum(payload)
  {
    if payload != [] {
      var d, rest := payload[0], payload[1..];
      WeightedIsAnnexB(rest);
      WeightedSumCons(d, rest, true);
      NextParity(|rest|);
      DoubledDigit(d);
      assert payload == [d] + rest;
    }
  }

  lemma NextParity(n: nat)
    ensures (n + 1) % 2 == 1 <==> n % 2 == 0
  {
  }

  /** The loop accepts exactly the 13 to 19 digit numbers whose last digit is the Annex B
      check digit of the others. */
  lemma AcceptsIffCheckDigit(script: Script, candidate: string)
    ensures var ds := Digits(script, candidate);
            Accepts(script, candidate) <==>
            Readable(script, candidate) && 13 <= |ds| <= 19 && ds[|ds| - 1] == CheckDigit(ds[..|ds| - 1])
  {
    var ds := Digits(script, candidate);
    if 13 <= |ds| {
      var payload := ds[..|ds| - 1];
      WeightedIsAnnexB(payload);
      CompletesToTen(AnnexBSum(payload), ds[|ds| - 1]);
    }
  }

  lemma CompletesToTen(sum: nat, d: Digit)
    ensures (sum + d) % 10 == 0 <==> d == (10 - sum % 10) % 10
  {
    var q, r := sum / 10, sum % 10;
    assert sum + d == 10 * q + (r + d);
    assert (sum + d) % 10 == (r + d) % 10;
  }

  /** The digits 0 to 9 stand for themselves, whatever the script. */
  lemma AsciiDigits(script: Script, d: Digit)
    ensures Read(script, "0123456789"[d]) == Decimal(d)
  {
  }

  // ---- error detection ----

  lemma {:induction false} DigitsConcat(script: Script, a: string, b: string)
    ensures Digits(script, a + b) == Digits(script, a) + Digits(script, b)
  {
    if a == "" {
      assert a + b == b;
    } else {
      assert (a + b)[1..] == a[1..] + b;
      DigitsConcat(script, a[1..], b);
    }
  }

  lemma ReadableConcat(script: Script, a: string, b: string)
    ensures Readable(script, a + b) <==> Readable(script, a) && Readable(script, b)
  {
    if Readable(script, a + b) {
      forall i | 0 <= i < |a| ensures Read(script, a[i]) != Unreadable {
        assert (a + b)[i] == a[i];
      }
      forall i | 0 <= i < |b| ensures Read(script, b[i]) != Unreadable {
        assert (a + b)[|a| + i] == b[i];
      }
    }
  }

  lemma {:induction false} WeightedSumConcat(a: seq<Digit>, b: seq<Digit>, doubled: bool)
    ensures WeightedSum(a + b, doubled)
         == WeightedSum(a, doubled == (|b| % 2 == 0)) + WeightedSum(b, doubled)
    decreases |b|
  {
    if b == [] {
      assert a + b == a;
    } else {
      assert (a + b)[..|a + b| - 1] == a + b[..|b| - 1];
      WeightedSumConcat(a, b[..|b| - 1], !doubled);
    }
  }

  lemma DigitInside(a: seq<Digit>, x: Digit, b: seq<Digit>)
    ensures var doubled := |b| % 2 == 1;
            WeightedSum(a + [x] + b, false) == WeightedSum(a, !doubled) + WeightedSum(b, false) + Weighted(x, doubled)
  {
    WeightedSumConcat(a + [x], b, false);
    assert (a + [x])[..|a|] == a;
  }

  /** Two different digits never contribute the same amount modulo ten. */
  lemma SubstitutionShiftsSum(rest: nat, x: Digit, y: Digit, doubled: bool)
    requires x != y
    requires (rest + Weighted(x, doubled)) % 10 == 0
    ensures (rest + Weighted(y, doubled)) % 10 != 0
  {
    var u, v := Weighted(x, doubled), Weighted(y, doubled);
    assert u <= 9 && v <= 9 && u != v;
    CompletesToTen(rest, u);
    CompletesToTen(rest, v);
  }

  /** The two orders of a pair of digits agree modulo ten only for equal digits and for 0, 9. */
  lemma TranspositionShiftsSum(rest: nat, x: Digit, y: Digit, doubled: bool)
    requires x != y
    requires (rest + Weighted(x, !doubled) + Weighted(y, doubled)) % 10 == 0
    ensures (rest + Weighted(y, !doubled) + Weighted(x, doubled)) % 10 == 0
            <==> (x == 0 && y == 9) || (x == 9 && y == 0)
  {
    var s, t := Weighted(x, !doubled) + Weighted(y, doubled), Weighted(y, !doubled) + Weighted(x, doubled);
    OrdersOfPair(x, y, doubled);
    SameModTen(rest + s, t - s);
    assert rest + s + (t - s) == rest + t;
  }

  lemma OrdersOfPair(x: Digit, y: Digit, doubled: bool)
    requires x != y
    ensures var s, t := Weighted(x, !doubled) + Weighted(y, doubled), Weighted(y, !doubled) + Weighted(x, doubled);
            -10 < t - s < 10 && (t == s <==> (x == 0 && y == 9) || (x == 9 && y == 0))
  {
  }

  lemma SameModTen(n: int, d: int)
    requires n % 10 == 0 && -10 < d < 10
    ensures (n + d) % 10 == 0 <==> d == 0
  {
    var q := n / 10;
    assert n + d == 10 * q + d;
  }

  /** Changing exactly one digit of an accepted string, wherever it stands and whatever separators
      surround it, goes unnoticed if and only if the new character stands for the same digit. */
  lemma SingleDigitErrorDetected(script: Script, before: string, x: char, y: char, after: string)
    requires IsDigit(script, x) && IsDigit(script, y)
    requires Accepts(script, before + [x] + after)
    ensures Accepts(script, before + [y] + after) <==> DigitOf(script, x) == DigitOf(script, y)
  {
    DigitsAround(script, before, x, after);
    DigitsAround(script, before, y, after);
    var a, b := Digits(script, before), Digits(script, after);
    var dx, dy := DigitOf(script, x), DigitOf(script, y);
    if dx != dy {
      DigitInside(a, dx, b);
      DigitInside(a, dy, b);
      var doubled := |b| % 2 == 1;
      SubstitutionShiftsSum(WeightedSum(a, !doubled) + WeightedSum(b, false), dx, dy, doubled);
    }
  }

  lemma DigitsAround(script: Script, before: string, x: char, after: string)
    requires IsDigit(script, x)
    ensures Digits(script, before + [x] + after)
         == Digits(script, before) + [DigitOf(script, x)] + Digits(script, after)
    ensures Readable(script, before + [x] + after) <==> Readable(script, before) && Readable(script, after)
  {
    DigitsConcat(script, before + [x], after);
    DigitsConcat(script, before, [x]);
    ReadableConcat(script, before + [x], after);
    ReadableConcat(script, before, [x]);
    assert [x][1..] == "";
  }

  /** Swapping two neighbouring digits of an accepted string, possibly across separators, goes
      unnoticed exactly when they are equal or are 0 and 9. */
  lemma TranspositionDetectedIff(script: Script, before: string, x: char, gap: string, y: char, after: string)
    requires IsDigit(script, x) && IsDigit(script, y) && Digits(script, gap) == []
    requires Accepts(script, before + [x] + gap + [y] + after)
    ensures Accepts(script, before + [y] + gap + [x] + after)
            <==> DigitOf(script, x) == DigitOf(script, y) || {DigitOf(script, x), DigitOf(script, y)} == {0, 9}
  {
    DigitsOfPair(script, before, x, gap, y, after);
    DigitsOfPair(script, before, y, gap, x, after);
    var a, b := Digits(script, before), Digits(script, after);
    var dx, dy := DigitOf(script, x), DigitOf(script, y);
    if dx != dy {
      PairInside(a, dx, dy, b);
      PairInside(a, dy, dx, b);
      var doubled := |b| % 2 == 1;
      TranspositionShiftsSum(WeightedSum(a, doubled) + WeightedSum(b, false), dx, dy, doubled);
      assert 0 in {dx, dy} && 9 in {dx, dy} <==> (dx == 0 && dy == 9) || (dx == 9 && dy == 0);
    }
  }

  lemma PairInside(a: seq<Digit>, x: Digit, y: Digit, b: seq<Digit>)
    ensures var doubled := |b| % 2 == 1;
            WeightedSum(a + [x, y] + b, false)
            == WeightedSum(a, doubled) + WeightedSum(b, false) + Weighted(x, !doubled) + Weighted(y, doubled)
  {
    WeightedSumConcat(a + [x, y], b, false);
    PairAtEnd(a, x, y, |b| % 2 == 1);
  }

  lemma PairAtEnd(a: seq<Digit>, x: Digit, y: Digit, doubled: bool)
    ensures WeightedSum(a + [x, y], doubled) == WeightedSum(a, doubled) + Weighted(x, !doubled) + Weighted(y, doubled)
  {
    assert (a + [x, y])[..|a| + 1] == a + [x];
    assert (a + [x])[..|a|] == a;
  }

  lemma DigitsOfPair(script: Script, before: string, x: char, gap: string, y: char, after: string)
    requires IsDigit(script, x) && IsDigit(script, y) && Digits(script, gap) == []
    ensures Digits(script, before + [x] + gap + [y] + after)
         == Digits(script, before) + [DigitOf(script, x), DigitOf(script, y)] + Digits(script, after)
    ensures Readable(script, before + [x] + gap + [y] + after)
            <==> Readable(script, before) && Readable(script, gap) && Readable(script, after)
  {
    DigitsAround(script, before + [x] + gap, y, after);
    DigitsAround(script, before, x, gap);
  }
}
