/** The Luhn formula (ISO/IEC 7812-1 Annex B) over digit strings of any length, and ISIN on top of it. */
module Luhn {
  import opened Common
  import opened CheckDigits

  /** What a digit adds when it stands `i` places from the right. */
  function Weight(i: nat, d: Digit): nat {
    if i % 2 == 0 then d else if 2 * d > 9 then 2 * d - 9 else 2 * d
  }

  function Reversed(ds: seq<Digit>): seq<Digit> {
    seq(|ds|, i requires 0 <= i < |ds| => ds[|ds| - 1 - i])
  }

  /** The weighted sum of a string already turned around. */
  function Total(rev: seq<Digit>): nat {
    if rev == [] then 0 else Total(Init(rev)) + Weight(|rev| - 1, Last(rev))
  }

  predicate ValidLuhn(ds: seq<Digit>) {
    Total(Reversed(ds)) % 10 == 0
  }

  method LuhnCheck(ds: seq<Digit>) returns (ok: bool)
    ensures ok == ValidLuhn(ds)
  {
    var digits := Reversed(ds);
    var total: nat := 0;
    for i := 0 to |digits|
      invariant total == Total(digits[..i])
    {
      assert Init(digits[..i + 1]) == digits[..i];
      var digit: nat := digits[i];
      if i % 2 == 1 {
        var doubled: nat := digit * 2;
        if doubled > 9 {
          doubled := doubled - 9;
        }
        total := total + doubled;
      } else {
        total := total + digit;
      }
    }
    assert digits[..|digits|] == digits;
    ok := total % 10 == 0;
  }

  lemma {:induction false} TotalUpdate(rev: seq<Digit>, i: nat, d: Digit)
    requires i < |rev|
    ensures Total(rev[i := d]) + Weight(i, rev[i]) == Total(rev) + Weight(i, d)
  {
    if i < |rev| - 1 {
      TotalUpdate(Init(rev), i, d);
      assert Init(rev[i := d]) == Init(rev)[i := d];
    } else {
      assert Init(rev[i := d]) == Init(rev);
    }
  }

  /** A passing digit string fails after any single digit changes. */
  lemma DigitChangeDetected(ds: seq<Digit>, i: nat, d: Digit)
    requires ValidLuhn(ds) && i < |ds| && d != ds[i]
    ensures !ValidLuhn(ds[i := d])
  {
    hide Total;
    var j := |ds| - 1 - i;
    assert Reversed(ds[i := d]) == Reversed(ds)[j := d];
    TotalUpdate(Reversed(ds), j, d);
  }

  function Swapped(ds: seq<Digit>, i: nat): seq<Digit>
    requires i + 1 < |ds|
  {
    ds[i := ds[i + 1]][i + 1 := ds[i]]
  }

  predicate ZeroNine(a: Digit, b: Digit) {
    (a == 0 && b == 9) || (a == 9 && b == 0)
  }

  lemma SwapWeights(j: nat, a: Digit, b: Digit)
    requires a != b
    ensures (Weight(j, b) + Weight(j + 1, a) - Weight(j, a) - Weight(j + 1, b)) % 10 == 0 <==> ZeroNine(a, b)
  {
  }

  lemma TotalSwap(rev: seq<Digit>, j: nat)
    requires j + 1 < |rev|
    ensures var a, b := rev[j], rev[j + 1];
            Total(rev[j := b][j + 1 := a]) - Total(rev)
            == Weight(j, b) + Weight(j + 1, a) - Weight(j, a) - Weight(j + 1, b)
  {
    TotalUpdate(rev, j, rev[j + 1]);
    TotalUpdate(rev[j := rev[j + 1]], j + 1, rev[j]);
  }

  lemma AddToMultiple(t: int, delta: int)
    requires t % 10 == 0
    ensures (t + delta) % 10 == 0 <==> delta % 10 == 0
  {
  }

  /** Swapping two different neighbours goes undetected exactly when they are 0 and 9. */
  lemma SwapDetectedUnlessZeroNine(ds: seq<Digit>, i: nat)
    requires ValidLuhn(ds) && i + 1 < |ds| && ds[i] != ds[i + 1]
    ensures ValidLuhn(Swapped(ds, i)) <==> ZeroNine(ds[i], ds[i + 1])
  {
    var j, rev := |ds| - 2 - i, Reversed(ds);
    var a, b := rev[j], rev[j + 1];
    assert Reversed(Swapped(ds, i)) == rev[j := b][j + 1 := a];
    TotalSwap(rev, j);
    SwapWeights(j, a, b);
    AddToMultiple(Total(rev), Total(Reversed(Swapped(ds, i))) - Total(rev));
  }

  // ---- ISIN ----

  predicate ValidIsin(s: string) {
    |s| == 12 && AllAlphaNumeric(s) && ValidLuhn(Digits(s))
  }

  method IsValidIsin(isin: string) returns (ok: bool)
    ensures ok == ValidIsin(isin)
  {
    if |isin| != 12 {
      return false;
    }
    var numeric := NumericString(isin);
    if numeric.None? {
      return false;
    }
    ok := LuhnCheck(numeric.value);
  }

  function DigitChar(d: Digit): (c: char)
    ensures IsDigit(c) && CharValue(c) == d
  {
    ('0' as int + d) as char
  }

  /** The final digit that completes an eleven-character prefix. */
  function CheckDigit(prefix: string): Digit
    requires AllAlphaNumeric(prefix)
  {
    (10 - Total(Reversed(Digits(prefix) + [0])) % 10) % 10
  }

  /** Every eleven-character prefix is completed by exactly one final digit. */
  lemma ExactlyOneCheckDigit(prefix: string, d: Digit)
    requires |prefix| == 11 && AllAlphaNumeric(prefix)
    ensures ValidIsin(prefix + [DigitChar(d)]) <==> d == CheckDigit(prefix)
  {
    OneChar(DigitChar(d));
    DigitsConcat(prefix, [DigitChar(d)]);
    LastDigit(Digits(prefix), d);
    Completes(Total(Reversed(Digits(prefix) + [0])), d);
  }

  lemma LastDigit(ds: seq<Digit>, d: Digit)
    ensures Total(Reversed(ds + [d])) == Total(Reversed(ds + [0])) + d
  {
    assert Reversed(ds + [d]) == Reversed(ds + [0])[0 := d];
    TotalUpdate(Reversed(ds + [0]), 0, d);
  }

  lemma Completes(t: nat, d: Digit)
    ensures (t + d) % 10 == 0 <==> d == (10 - t % 10) % 10
  {
  }

  lemma OtherLengthsFail(s: string)
    requires |s| != 12
    ensures !ValidIsin(s)
  {
  }

  predicate Weighs(rev: seq<Digit>, t: nat) {
    Total(rev) == t
  }

  lemma MoreWeight(rev: seq<Digit>, t: nat, d: Digit)
    requires Weighs(rev, t)
    ensures Weighs(rev + [d], t + Weight(|rev|, d))
  {
    assert Init(rev + [d]) == rev;
  }

  predicate Spells(s: string, ds: seq<Digit>) {
    AllAlphaNumeric(s) && Digits(s) == ds
  }

  lemma MoreSpelled(s: string, ds: seq<Digit>, t: string, more: seq<Digit>)
    requires Spells(s, ds) && |t| == 2 && AlphaNumeric(t[0]) && AlphaNumeric(t[1])
    requires CharDigits(t[0]) + CharDigits(t[1]) == more
    ensures Spells(s + t, ds + more)
  {
    OneChar(t[0]);
    OneChar(t[1]);
    DigitsConcat([t[0]], [t[1]]);
    assert t == [t[0]] + [t[1]];
    DigitsConcat(s, t);
  }

  lemma ExampleSpells(s: string, ds: seq<Digit>)
    requires s == "" + "US" + "03" + "78" + "33" + "10" + "05"
    requires ds == [] + [3, 0, 2, 8] + [0, 3] + [7, 8] + [3, 3] + [1, 0] + [0, 5]
    ensures Spells(s, ds)
  {
    assert Spells("", []);
    hide Spells;
    MoreSpelled("", [], "US", [3, 0, 2, 8]);
    var s0 := "" + "US";
    var d0: seq<Digit> := [] + [3, 0, 2, 8];
    MoreSpelled(s0, d0, "03", [0, 3]);
    var s1 := s0 + "03";
    var d1: seq<Digit> := d0 + [0, 3];
    MoreSpelled(s1, d1, "78", [7, 8]);
    var s2 := s1 + "78";
    var d2: seq<Digit> := d1 + [7, 8];
    MoreSpelled(s2, d2, "33", [3, 3]);
    var s3 := s2 + "33";
    var d3: seq<Digit> := d2 + [3, 3];
    MoreSpelled(s3, d3, "10", [1, 0]);
    var s4 := s3 + "10";
    var d4: seq<Digit> := d3 + [1, 0];
    MoreSpelled(s4, d4, "05", [0, 5]);
    var s5 := s4 + "05";
    var d5: seq<Digit> := d4 + [0, 5];
  }

  lemma ExampleWeighs(rev: seq<Digit>)
    requires rev == [] + [5] + [0] + [0] + [1] + [3] + [3] + [8] + [7] + [3] + [0] + [8] + [2] + [0] + [3]
    ensures Weighs(rev, 50)
  {
    assert Weighs([], 0);
    hide Weighs;
    MoreWeight([], 0, 5);
    var r0 := [] + [5];
    MoreWeight(r0, 5, 0);
    var r1 := r0 + [0];
    MoreWeight(r1, 5, 0);
    var r2 := r1 + [0];
    MoreWeight(r2, 5, 1);
    var r3 := r2 + [1];
    MoreWeight(r3, 7, 3);
    var r4 := r3 + [3];
    MoreWeight(r4, 10, 3);
    var r5 := r4 + [3];
    MoreWeight(r5, 16, 8);
    var r6 := r5 + [8];
    MoreWeight(r6, 24, 7);
    var r7 := r6 + [7];
    MoreWeight(r7, 29, 3);
    var r8 := r7 + [3];
    MoreWeight(r8, 32, 0);
    var r9 := r8 + [0];
    MoreWeight(r9, 32, 8);
    var r10 := r9 + [8];
    MoreWeight(r10, 40, 2);
    var r11 := r10 + [2];
    MoreWeight(r11, 44, 0);
    var r12 := r11 + [0];
    MoreWeight(r12, 44, 3);
    var r13 := r12 + [3];
  }

  lemma ExampleWritten()
    ensures "US0378331005" == "" + "US" + "03" + "78" + "33" + "10" + "05"
  {
  }

  lemma ExampleReversed(ds: seq<Digit>)
    requires ds == [] + [3, 0, 2, 8] + [0, 3] + [7, 8] + [3, 3] + [1, 0] + [0, 5]
    ensures Reversed(ds) == [] + [5] + [0] + [0] + [1] + [3] + [3] + [8] + [7] + [3] + [0] + [8] + [2] + [0] + [3]
  {
  }

  lemma SpellsValid(isin: string, ds: seq<Digit>, t: nat)
    requires |isin| == 12 && Spells(isin, ds) && Weighs(Reversed(ds), t) && t % 10 == 0
    ensures ValidIsin(isin)
  {
  }

  /** An ISIN that is in use passes. */
  lemma ExampleIsin()
    ensures ValidIsin("US0378331005")
  {
    hide Spells, Weighs, Reversed, ValidIsin;
    var ds: seq<Digit> := [] + [3, 0, 2, 8] + [0, 3] + [7, 8] + [3, 3] + [1, 0] + [0, 5];
    ExampleWritten();
    ExampleSpells("US0378331005", ds);
    ExampleReversed(ds);
    ExampleWeighs(Reversed(ds));
    SpellsValid("US0378331005", ds, 50);
  }

  /** So a valid ISIN fails when any digit character of it is changed to another digit. */
  lemma IsinDigitChangeDetected(s: string, i: nat, d: Digit)
    requires ValidIsin(s) && i < |s| && IsDigit(s[i]) && s[i] != DigitChar(d)
    ensures !ValidIsin(s[i := DigitChar(d)])
  {
    hide Digits, ValidLuhn, DigitChar;
    var p, q, c := s[..i], s[i + 1..], DigitChar(d);
    assert s == p + [s[i]] + q && s[i := c] == p + [c] + q;
    OneChar(s[i]);
    OneChar(c);
    Sandwich(p, [s[i]], q);
    Sandwich(p, [c], q);
    var k := |Digits(p)|;
    assert Digits(s)[k] == CharValue(s[i]);
    assert Digits(s[i := c]) == Digits(s)[k := d];
    DigitChangeDetected(Digits(s), k, d);
  }
}
