/** IBAN (ISO 13616, MOD 97-10) and ISIN (Luhn) check digits over ASCII strings of any length. */
module CheckDigits {
  import opened Common

  type Digit = d: nat | d < 10

  predicate IsDigit(c: char) {
    '0' <= c <= '9'
  }

  predicate IsLetter(c: char) {
    'A' <= c <= 'Z' || 'a' <= c <= 'z'
  }

  predicate AlphaNumeric(c: char) {
    IsDigit(c) || IsLetter(c)
  }

  predicate AllAlphaNumeric(s: string) {
    forall i :: 0 <= i < |s| ==> AlphaNumeric(s[i])
  }

  /** A digit stands for itself, a letter for its distance from 'A' plus ten (two digits). */
  function CharValue(c: char): nat
    requires AlphaNumeric(c)
  {
    if IsDigit(c) then c as int - '0' as int else c as int - 'A' as int + 10
  }

  /** What the characters are worth: 0 to 9, A to Z 10 to 35, and a to z, which the source does not fold, 42 to 67. */
  lemma CharacterWorth(i: nat)
    ensures i < 10 ==> CharValue(('0' as int + i) as char) == i
    ensures i < 26 ==> CharValue(('A' as int + i) as char) == 10 + i
    ensures i < 26 ==> CharValue(('a' as int + i) as char) == 42 + i
    ensures CharValue('0') == 0 && CharValue('9') == 9 && CharValue('A') == 10 && CharValue('Z') == 35
  {
  }

  function CharDigits(c: char): seq<Digit>
    requires AlphaNumeric(c)
  {
    if IsDigit(c) then [CharValue(c)] else [CharValue(c) / 10, CharValue(c) % 10]
  }

  function Digits(s: string): seq<Digit>
    requires AllAlphaNumeric(s)
  {
    if s == "" then [] else Digits(Init(s)) + CharDigits(Last(s))
  }

  /** The digit string of `s`, or nothing when some character is neither a letter nor a digit. */
  method NumericString(s: string) returns (r: Option<seq<Digit>>)
    ensures r == if AllAlphaNumeric(s) then Some(Digits(s)) else None
  {
    var ds: seq<Digit> := [];
    for i := 0 to |s|
      invariant AllAlphaNumeric(s[..i]) && ds == Digits(s[..i])
    {
      if !AlphaNumeric(s[i]) {
        return None;
      }
      assert Init(s[..i + 1]) == s[..i];
      ds := ds + CharDigits(s[i]);
    }
    assert s[..|s|] == s;
    r := Some(ds);
  }

  /** `x` with `k` zeros appended. */
  function Shifted(x: int, k: nat): int {
    if k == 0 then x else 10 * Shifted(x, k - 1)
  }

  function Value(ds: seq<Digit>): nat {
    if ds == [] then 0 else 10 * Value(Init(ds)) + Last(ds)
  }

  // ---- IBAN ----

  /** Python 3.11 refuses to convert a longer decimal string to an integer; the validator then answers no. */
  const INT_MAX_STR_DIGITS := 4300

  function Rearranged(s: string): string
    requires |s| >= 4
  {
    s[4..] + s[..4]
  }

  predicate ValidIban(s: string) {
    && |s| >= 5 && AllAlphaNumeric(Rearranged(s))
    && |Digits(Rearranged(s))| <= INT_MAX_STR_DIGITS
    && Value(Digits(Rearranged(s))) % 97 == 1
  }

  method IsValidIban(iban: string) returns (ok: bool)
    ensures ok == ValidIban(iban)
  {
    if |iban| < 5 {
      return false;
    }
    var numeric := NumericString(Rearranged(iban));
    ok := numeric.Some? && |numeric.value| <= INT_MAX_STR_DIGITS && Value(numeric.value) % 97 == 1;
  }

  lemma {:induction false} ValueConcat(a: seq<Digit>, b: seq<Digit>)
    ensures Value(a + b) == Shifted(Value(a), |b|) + Value(b)
  {
    if b == [] {
      assert a + b == a;
    } else {
      ValueConcat(a, Init(b));
      assert Init(a + b) == a + Init(b) && Last(a + b) == Last(b);
    }
  }

  lemma {:induction false} DigitsConcat(s: string, t: string)
    requires AllAlphaNumeric(s) && AllAlphaNumeric(t)
    ensures AllAlphaNumeric(s + t) && Digits(s + t) == Digits(s) + Digits(t)
  {
    hide CharDigits;
    if t == "" {
      assert s + t == s;
    } else {
      DigitsConcat(s, Init(t));
      assert Init(s + t) == s + Init(t) && Last(s + t) == Last(t);
      assert (Digits(s) + Digits(Init(t))) + CharDigits(Last(t)) == Digits(s) + (Digits(Init(t)) + CharDigits(Last(t)));
    }
  }

  /** The digits of a string cut in three. */
  lemma Sandwich(p: string, m: string, q: string)
    requires AllAlphaNumeric(p) && AllAlphaNumeric(m) && AllAlphaNumeric(q)
    ensures AllAlphaNumeric(p + m + q) && Digits(p + m + q) == Digits(p) + Digits(m) + Digits(q)
  {
    DigitsConcat(p, m);
    DigitsConcat(p + m, q);
  }

  /** Ten is invertible modulo 97. */
  lemma TenTimes(y: int)
    ensures (10 * y) % 97 == 0 <==> y % 97 == 0
  {
    assert y == 68 * (10 * y) - 97 * (7 * y);
  }

  lemma {:induction false} ShiftIsUnit(x: int, k: nat)
    ensures Shifted(x, k) % 97 == 0 <==> x % 97 == 0
  {
    if k > 0 {
      ShiftIsUnit(x, k - 1);
      TenTimes(Shifted(x, k - 1));
    }
  }

  lemma {:induction false} ShiftDifference(x: int, y: int, k: nat)
    ensures Shifted(x, k) - Shifted(y, k) == Shifted(x - y, k)
  {
    if k > 0 {
      ShiftDifference(x, y, k - 1);
    }
  }

  lemma SameResidue(a: int, b: int)
    ensures a % 97 == b % 97 <==> (a - b) % 97 == 0
  {
  }

  lemma ShiftDecides(x: int, y: int, z: int, k: nat)
    requires x - y == Shifted(z, k)
    ensures x % 97 == y % 97 <==> z % 97 == 0
  {
    SameResidue(x, y);
    ShiftIsUnit(z, k);
  }

  /** What replacing the middle digits by equally many does to the value. */
  lemma MiddleShifts(a: seq<Digit>, b: seq<Digit>, b': seq<Digit>, d: seq<Digit>)
    requires |b| == |b'|
    ensures Value(a + b + d) - Value(a + b' + d) == Shifted(Value(b) - Value(b'), |d|)
  {
    hide Value, Shifted;
    var x: int, y: int := Value(a + b), Value(a + b');
    assert Value(a + b + d) - Value(a + b' + d) == Shifted(x, |d|) - Shifted(y, |d|) by {
      ValueConcat(a + b, d);
      ValueConcat(a + b', d);
    }
    assert x - y == Value(b) - Value(b') by {
      ValueConcat(a, b);
      ValueConcat(a, b');
    }
    ShiftDifference(x, y, |d|);
  }

  /** So it keeps the residue exactly when the middles have the same residue. */
  lemma MiddleDecides(a: seq<Digit>, b: seq<Digit>, b': seq<Digit>, d: seq<Digit>)
    requires |b| == |b'|
    ensures Value(a + b + d) % 97 == Value(a + b' + d) % 97 <==> (Value(b) - Value(b')) % 97 == 0
  {
    var x: int, y: int, z: int := Value(a + b + d), Value(a + b' + d), Value(b) - Value(b');
    assert x - y == Shifted(z, |d|) by {
      MiddleShifts(a, b, b', d);
    }
    ShiftDecides(x, y, z, |d|);
  }

  lemma AffixesAlphaNumeric(p: string, m: string, q: string)
    requires AllAlphaNumeric(p + m + q)
    ensures AllAlphaNumeric(p) && AllAlphaNumeric(q)
  {
    var s := p + m + q;
    assert forall i :: 0 <= i < |p| ==> s[i] == p[i];
    assert forall i :: 0 <= i < |q| ==> s[|p| + |m| + i] == q[i];
  }

  // ---- What the IBAN check detects ----

  /** Replacing some characters of a valid IBAN by others with as many digits. */
  lemma ReplacedMiddle(s: string, t: string, p: string, m: string, m': string, q: string)
    requires ValidIban(s) && |t| == |s| && Rearranged(s) == p + m + q && Rearranged(t) == p + m' + q
    requires AllAlphaNumeric(m) && AllAlphaNumeric(m') && |Digits(m)| == |Digits(m')|
    ensures ValidIban(t) <==> (Value(Digits(m)) - Value(Digits(m'))) % 97 == 0
  {
    hide Value, Digits;
    AffixesAlphaNumeric(p, m, q);
    var a, b, b', d := Digits(p), Digits(m), Digits(m'), Digits(q);
    assert Digits(Rearranged(s)) == a + b + d by {
      Sandwich(p, m, q);
    }
    assert AllAlphaNumeric(Rearranged(t)) && Digits(Rearranged(t)) == a + b' + d by {
      Sandwich(p, m', q);
    }
    MiddleDecides(a, b, b', d);
  }

  lemma OneChar(c: char)
    requires AlphaNumeric(c)
    ensures AllAlphaNumeric([c]) && Digits([c]) == CharDigits(c) && Value(CharDigits(c)) == CharValue(c)
  {
    assert Init([c]) == "";
    if IsLetter(c) {
      assert Init(CharDigits(c)) == [CharValue(c) / 10];
      assert Init([CharValue(c) / 10]) == [];
      assert Value([CharValue(c) / 10]) == CharValue(c) / 10;
    } else {
      assert Init(CharDigits(c)) == [];
    }
  }

  lemma TwoChars(c: char, d: char)
    requires AlphaNumeric(c) && AlphaNumeric(d)
    ensures AllAlphaNumeric([c, d]) && |Digits([c, d])| == |CharDigits(c)| + |CharDigits(d)|
    ensures Value(Digits([c, d])) == CharValue(c) * (if IsDigit(d) then 10 else 100) + CharValue(d)
  {
    OneChar(c);
    OneChar(d);
    DigitsConcat([c], [d]);
    assert [c] + [d] == [c, d];
    ValueConcat(CharDigits(c), CharDigits(d));
    assert Shifted(CharValue(c), 1) == 10 * CharValue(c);
    assert Shifted(CharValue(c), 2) == 100 * CharValue(c);
  }

  /** Both digits or both letters. */
  predicate SameClass(c: char, d: char) {
    (IsDigit(c) && IsDigit(d)) || (IsLetter(c) && IsLetter(d))
  }

  /** Where character `i` stands once the first four have moved to the end. */
  function Position(s: string, i: nat): nat
    requires 4 <= |s| && i < |s|
  {
    if i >= 4 then i - 4 else |s| - 4 + i
  }

  lemma RearrangedUpdate(s: string, i: nat, c: char)
    requires 4 <= |s| && i < |s|
    ensures var r, j := Rearranged(s), Position(s, i);
            && r == r[..j] + [s[i]] + r[j + 1..]
            && Rearranged(s[i := c]) == r[..j] + [c] + r[j + 1..]
  {
  }

  /** A unit modulo 97 annihilates no small non-zero number. */
  lemma SmallResidue(z: int, unit: int, inverse: int)
    requires -97 < z < 97 && (unit * inverse) % 97 == 1
    ensures (unit * z) % 97 == 0 <==> z == 0
  {
    if (unit * z) % 97 == 0 {
      var q := (unit * z) / 97;
      assert unit * inverse == 97 * (unit * inverse / 97) + 1;
      calc {
        z;
        (unit * inverse) * z - 97 * (unit * inverse / 97) * z;
        inverse * (unit * z) - 97 * ((unit * inverse / 97) * z);
        97 * (inverse * q - (unit * inverse / 97) * z);
      }
    }
  }

  /** A valid IBAN becomes invalid when one character is replaced by a different one of its class. */
  lemma SubstitutionDetected(s: string, i: nat, c: char)
    requires ValidIban(s) && i < |s| && c != s[i] && SameClass(c, s[i])
    ensures !ValidIban(s[i := c])
  {
    hide Value, Digits;
    RearrangedUpdate(s, i, c);
    OneChar(s[i]);
    OneChar(c);
    var r, j := Rearranged(s), Position(s, i);
    ReplacedMiddle(s, s[i := c], r[..j], [s[i]], [c], r[j + 1..]);
    SmallResidue(CharValue(s[i]) - CharValue(c), 1, 1);
  }

  /** The one blind spot: a letter next to a digit it is worth eleven times (B and 1, M and 2, X and 3, ...). */
  predicate ElevenFold(c: char, d: char)
    requires AlphaNumeric(c) && AlphaNumeric(d)
  {
    || (IsLetter(c) && IsDigit(d) && CharValue(c) == 11 * CharValue(d))
    || (IsDigit(c) && IsLetter(d) && CharValue(d) == 11 * CharValue(c))
  }

  /** Which letters and digits these are. */
  predicate BlindPair(letter: char, digit: char) {
    (letter, digit) in [('B', '1'), ('M', '2'), ('X', '3'), ('c', '4'), ('n', '5'), ('y', '6')]
  }

  lemma ElevenFoldPairs(c: char, d: char)
    requires AlphaNumeric(c) && AlphaNumeric(d)
    ensures ElevenFold(c, d) <==> BlindPair(c, d) || BlindPair(d, c)
  {
    var pairs := [('B', '1'), ('M', '2'), ('X', '3'), ('c', '4'), ('n', '5'), ('y', '6')];
    if ElevenFold(c, d) {
      var letter, digit := if IsLetter(c) then c else d, if IsLetter(c) then d else c;
      assert (letter, digit) == pairs[digit as int - '1' as int];
    }
  }

  /**
   * Swapping two different characters that are adjacent once the first four have moved to the end goes
   * undetected exactly when they are B and 1, M and 2, X and 3, c and 4, n and 5, or y and 6.
   */
  lemma SwapDetectedUnlessElevenFold(s: string, t: string, j: nat)
    requires ValidIban(s) && |t| == |s| && j + 1 < |s|
    requires var r := Rearranged(s);
             r[j] != r[j + 1] && Rearranged(t) == r[j := r[j + 1]][j + 1 := r[j]]
    ensures var c, d := Rearranged(s)[j], Rearranged(s)[j + 1];
            ValidIban(t) <==> BlindPair(c, d) || BlindPair(d, c)
  {
    hide Value, Digits;
    var r := Rearranged(s);
    var c, d, p, q := r[j], r[j + 1], r[..j], r[j + 2..];
    assert r == p + [c, d] + q && Rearranged(t) == p + [d, c] + q;
    TwoChars(c, d);
    TwoChars(d, c);
    ReplacedMiddle(s, t, p, [c, d], [d, c], q);
    SwapResidue(c, d, Value(Digits([c, d])) - Value(Digits([d, c])));
    ElevenFoldPairs(c, d);
    hide BlindPair, ElevenFold;
  }

  lemma SwapResidue(c: char, d: char, z: int)
    requires AlphaNumeric(c) && AlphaNumeric(d) && c != d
    requires z == CharValue(c) * (if IsDigit(d) then 10 else 100) + CharValue(d)
                - CharValue(d) * (if IsDigit(c) then 10 else 100) - CharValue(c)
    ensures z % 97 == 0 <==> ElevenFold(c, d)
  {
    var x: int, y: int := CharValue(c), CharValue(d);
    hide CharValue;
    if IsDigit(c) && IsDigit(d) {
      assert z == 9 * (x - y);
      SmallResidue(x - y, 9, 54);
    } else if IsLetter(c) && IsLetter(d) {
      assert z == 99 * (x - y);
      SmallResidue(x - y, 99, 49);
    } else if IsLetter(c) {
      assert z == 9 * (x - 11 * y);
      SmallResidue(x - 11 * y, 9, 54);
    } else {
      assert z == 9 * (11 * x - y);
      SmallResidue(11 * x - y, 9, 54);
    }
  }

  function TwoDigits(k: nat): string
    requires k < 100
  {
    [('0' as int + k / 10) as char, ('0' as int + k % 10) as char]
  }

  lemma PairValue(k: nat)
    requires k < 100
    ensures AllAlphaNumeric(TwoDigits(k)) && |Digits(TwoDigits(k))| == 2 && Value(Digits(TwoDigits(k))) == k
  {
    TwoChars(TwoDigits(k)[0], TwoDigits(k)[1]);
  }

  lemma PairLast(x: string, k: nat)
    requires k < 100 && AllAlphaNumeric(x)
    ensures AllAlphaNumeric(x + TwoDigits(k)) && |Digits(x + TwoDigits(k))| == |Digits(x)| + 2
    ensures Value(Digits(x + TwoDigits(k))) == 100 * Value(Digits(x)) + k
  {
    PairValue(k);
    DigitsConcat(x, TwoDigits(k));
    ValueConcat(Digits(x), Digits(TwoDigits(k)));
    assert Shifted(Value(Digits(x)), 2) == 10 * Shifted(Value(Digits(x)), 1);
  }

  /** The check pair the standard prescribes, between 02 and 98. */
  function CheckPair(x: nat): (k: nat)
    ensures 2 <= k <= 98
  {
    98 - (100 * x) % 97
  }

  lemma UniquePair(y: nat, k: nat)
    requires 2 <= k <= 98
    ensures (y + k) % 97 == 1 <==> k == 98 - y % 97
  {
    assert y == 97 * (y / 97) + y % 97;
    SameResidue(y + k, y % 97 + k);
  }

  /** For country and body of at most 4298 digits together exactly one check pair in 02..98 passes, and else none. */
  lemma ExactlyOneCheckPair(country: string, body: string, k: nat)
    requires |country| == 2 && body != "" && AllAlphaNumeric(country) && AllAlphaNumeric(body) && 2 <= k <= 98
    ensures AllAlphaNumeric(body + country)
    ensures ValidIban(country + TwoDigits(k) + body)
            <==> |Digits(body + country)| <= 4298 && k == CheckPair(Value(Digits(body + country)))
  {
    var x := body + country;
    assert Rearranged(country + TwoDigits(k) + body) == x + TwoDigits(k);
    PairLast(x, k);
    UniquePair(100 * Value(Digits(x)), k);
  }

  /** Four characters are never enough. */
  lemma TooShort(s: string)
    requires |s| <= 4
    ensures !ValidIban(s)
  {
  }

  /** The string stands for the number `v`. */
  predicate Reads(s: string, v: nat) {
    AllAlphaNumeric(s) && |Digits(s)| <= 2 * |s| && Value(Digits(s)) == v
  }

  lemma ReadOn(s: string, v: nat, t: string, w: nat, letters: nat)
    requires Reads(s, v) && Reads(t, w) && |Digits(t)| == |t| + letters
    ensures var value := Shifted(v, |t| + letters) + w; value >= 0 && Reads(s + t, value)
  {
    DigitsConcat(s, t);
    ValueConcat(Digits(s), Digits(t));
  }

  lemma ReadDigits(t: string)
    requires |t| == 2 && IsDigit(t[0]) && IsDigit(t[1])
    ensures Reads(t, 10 * (t[0] as int - '0' as int) + (t[1] as int - '0' as int)) && |Digits(t)| == 2
  {
    TwoChars(t[0], t[1]);
    assert t == [t[0], t[1]];
  }

  lemma ReadLetters(t: string)
    requires |t| == 2 && 'A' <= t[0] <= 'Z' && 'A' <= t[1] <= 'Z'
    ensures Reads(t, 100 * (t[0] as int - 'A' as int + 10) + (t[1] as int - 'A' as int + 10)) && |Digits(t)| == 4
  {
    TwoChars(t[0], t[1]);
    assert t == [t[0], t[1]];
  }

  lemma Shifts(v: nat)
    ensures Shifted(v, 2) == 100 * v && Shifted(v, 4) == 10000 * v
  {
    assert Shifted(v, 2) == 10 * Shifted(v, 1);
    assert Shifted(v, 4) == 10 * Shifted(v, 3) && Shifted(v, 3) == 10 * Shifted(v, 2);
  }

  lemma MoreDigits(s: string, v: nat, t: string)
    requires Reads(s, v) && |t| == 2 && IsDigit(t[0]) && IsDigit(t[1])
    ensures Reads(s + t, 100 * v + 10 * (t[0] as int - '0' as int) + (t[1] as int - '0' as int))
  {
    ReadDigits(t);
    ReadOn(s, v, t, 10 * (t[0] as int - '0' as int) + (t[1] as int - '0' as int), 0);
    Shifts(v);
  }

  lemma MoreLetters(s: string, v: nat, t: string)
    requires Reads(s, v) && |t| == 2 && 'A' <= t[0] <= 'Z' && 'A' <= t[1] <= 'Z'
    ensures Reads(s + t, 10000 * v + 100 * (t[0] as int - 'A' as int + 10) + (t[1] as int - 'A' as int + 10))
  {
    ReadLetters(t);
    ReadOn(s, v, t, 100 * (t[0] as int - 'A' as int + 10) + (t[1] as int - 'A' as int + 10), 2);
    Shifts(v);
  }

  lemma ExampleReads(s: string)
    requires s == "" + "WE" + "ST" + "12" + "34" + "56" + "98" + "76"
                     + "54" + "32" + "GB" + "82"
    ensures Reads(s, 3214282912345698765432161182)
  {
    assert Reads("", 0);
    hide Reads;
    MoreLetters("", 0, "WE");
    var s0 := "" + "WE";
    MoreLetters(s0, 3214, "ST");
    var s1 := s0 + "ST";
    MoreDigits(s1, 32142829, "12");
    var s2 := s1 + "12";
    MoreDigits(s2, 3214282912, "34");
    var s3 := s2 + "34";
    MoreDigits(s3, 321428291234, "56");
    var s4 := s3 + "56";
    MoreDigits(s4, 32142829123456, "98");
    var s5 := s4 + "98";
    MoreDigits(s5, 3214282912345698, "76");
    var s6 := s5 + "76";
    MoreDigits(s6, 321428291234569876, "54");
    var s7 := s6 + "54";
    MoreDigits(s7, 32142829123456987654, "32");
    var s8 := s7 + "32";
    MoreLetters(s8, 3214282912345698765432, "GB");
    var s9 := s8 + "GB";
    MoreDigits(s9, 32142829123456987654321611, "82");
    var s10 := s9 + "82";
  }

  lemma ExampleRearranged()
    ensures Rearranged("GB82WEST12345698765432")
         == "" + "WE" + "ST" + "12" + "34" + "56" + "98" + "76" + "54" + "32" + "GB" + "82"
  {
  }

  lemma ReadsValid(iban: string, v: nat)
    requires 5 <= |iban| <= 2000 && Reads(Rearranged(iban), v) && v % 97 == 1
    ensures ValidIban(iban)
  {
  }

  /** The example of the standard passes. */
  lemma ExampleIban()
    ensures ValidIban("GB82WEST12345698765432")
  {
    hide Reads, Rearranged, ValidIban;
    ExampleRearranged();
    ExampleReads(Rearranged("GB82WEST12345698765432"));
    ReadsValid("GB82WEST12345698765432", 3214282912345698765432161182);
  }
}
