/** Result types and the string and sequence operations shared by the other modules. */
module Common {

  datatype Option<+T> = None | Some(value: T)

  /** What a call into the source may do: hand back a value, or raise. */
  datatype Outcome<+T> = Returned(value: T) | Raised

  function Min(a: int, b: int): int {
    if a < b then a else b
  }

  function Max(a: int, b: int): int {
    if a < b then b else a
  }

  function Last<T>(s: seq<T>): T
    requires s != []
  {
    s[|s| - 1]
  }

  function Init<T>(s: seq<T>): seq<T>
    requires s != []
  {
    s[..|s| - 1]
  }

  lemma PrefixSnoc<T>(s: seq<T>, i: nat)
    requires i < |s|
    ensures s[..i] + [s[i]] == s[..i + 1]
  {
  }

  lemma ConcatAssociates<T>(a: seq<T>, b: seq<T>, c: seq<T>)
    ensures (a + b) + c == a + (b + c)
  {
  }

  lemma BagsAssociate<T>(a: multiset<T>, s: seq<T>, t: seq<T>)
    ensures a + multiset(s + t) == a + multiset(s) + multiset(t)
  {
  }

  lemma BagsCommute<T>(a: multiset<T>, b: multiset<T>, c: multiset<T>)
    ensures a + b + c == a + c + b
  {
  }

  /** The concatenation of a sequence of sequences. */
  function Flatten<T>(ss: seq<seq<T>>): seq<T> {
    if ss == [] then [] else ss[0] + Flatten(ss[1..])
  }

  lemma {:induction false} FlattenAppend<T>(a: seq<seq<T>>, b: seq<seq<T>>)
    ensures Flatten(a + b) == Flatten(a) + Flatten(b)
  {
    if a == [] {
      assert a + b == b;
    } else {
      assert (a + b)[0] == a[0] && (a + b)[1..] == a[1..] + b;
      FlattenAppend(a[1..], b);
    }
  }

  lemma FlattenSnoc<T>(a: seq<seq<T>>, x: seq<T>)
    ensures Flatten(a + [x]) == Flatten(a) + x
  {
    FlattenAppend(a, [x]);
    assert [x][1..] == [];
    assert Flatten([x]) == x + Flatten([]);
  }
}

/** Sets of page numbers: the least and the greatest. */
module Extremes {
  import opened Common

  lemma AnyOf<T>(s: set<T>) returns (x: T)
    requires |s| > 0
    ensures x in s
  {
    x :| x in s;
  }

  lemma {:induction false} LeastExists(s: set<int>)
    requires |s| > 0
    ensures exists x :: x in s && forall y :: y in s ==> x <= y
  {
    var z := AnyOf(s);
    var rest := s - {z};
    if |rest| == 0 {
      assert s == {z};
    } else {
      LeastExists(rest);
      var x :| x in rest && forall y :: y in rest ==> x <= y;
      var w := Min(x, z);
      assert w in s;
      assert forall y :: y in s ==> y == z || y in rest;
    }
  }

  lemma {:induction false} GreatestExists(s: set<int>)
    requires |s| > 0
    ensures exists x :: x in s && forall y :: y in s ==> y <= x
  {
    var z := AnyOf(s);
    var rest := s - {z};
    if |rest| == 0 {
      assert s == {z};
    } else {
      GreatestExists(rest);
      var x :| x in rest && forall y :: y in rest ==> y <= x;
      var w := Max(x, z);
      assert w in s;
      assert forall y :: y in s ==> y == z || y in rest;
    }
  }

  /** The first page of the sorted set. */
  function Least(s: set<int>): (x: int)
    requires |s| > 0
    ensures x in s && forall y :: y in s ==> x <= y
  {
    LeastExists(s);
    var x :| x in s && forall y :: y in s ==> x <= y;
    x
  }

  /** The last page of the sorted set. */
  function Greatest(s: set<int>): (x: int)
    requires |s| > 0
    ensures x in s && forall y :: y in s ==> y <= x
  {
    GreatestExists(s);
    var x :| x in s && forall y :: y in s ==> y <= x;
    x
  }
}

/** Python string methods on ASCII text. */
module Text {
  import opened Common

  predicate IsSpace(c: char) {
    c == ' ' || '\t' <= c <= '\r' || '\U{1C}' <= c <= '\U{1F}'
  }

  function LowerChar(c: char): char {
    if 'A' <= c <= 'Z' then (c as int + 32) as char else c
  }

  function Lower(s: string): string {
    seq(|s|, i requires 0 <= i < |s| => LowerChar(s[i]))
  }

  function StripLeft(s: string): string {
    if s != "" && IsSpace(s[0]) then StripLeft(s[1..]) else s
  }

  function StripRight(s: string): string {
    if s != "" && IsSpace(Last(s)) then StripRight(Init(s)) else s
  }

  function Strip(s: string): string {
    StripRight(StripLeft(s))
  }

  /** `h.lower().strip()`, the form in which headers are compared. */
  function Canonical(s: string): string {
    Strip(Lower(s))
  }

  predicate OccursAt(hay: string, needle: string, i: nat) {
    i + |needle| <= |hay| && hay[i..i + |needle|] == needle
  }

  /** Python's `needle in hay`. */
  predicate Within(needle: string, hay: string) {
    exists i: nat | i <= |hay| :: OccursAt(hay, needle, i)
  }

  /** Python's `hay.find(needle)`, from position `from`; -1 when absent. */
  function FindFrom(hay: string, needle: string, from: nat): int
    decreases |hay| - from
  {
    if from + |needle| > |hay| then -1
    else if OccursAt(hay, needle, from) then from
    else FindFrom(hay, needle, from + 1)
  }

  /** Python's `s.split()`. */
  function Words(s: string): seq<string> {
    WordsFrom(s, "")
  }

  function WordsFrom(s: string, word: string): seq<string>
    decreases |s|
  {
    if s == "" then Emit(word)
    else if IsSpace(s[0]) then Emit(word) + WordsFrom(s[1..], "")
    else WordsFrom(s[1..], word + [s[0]])
  }

  function Emit(word: string): seq<string> {
    if word == "" then [] else [word]
  }

  // ---- What they mean ----

  /** The ASCII characters that Python strips and splits at. */
  predicate Blank(c: char) {
    c in [' ', '\t', '\n', '\U{B}', '\U{C}', '\r', '\U{1C}', '\U{1D}', '\U{1E}', '\U{1F}']
  }

  lemma BlankIsSpace(c: char)
    ensures Blank(c) <==> IsSpace(c)
  {
    var blanks := [' ', '\t', '\n', '\U{B}', '\U{C}', '\r', '\U{1C}', '\U{1D}', '\U{1E}', '\U{1F}'];
    if '\t' <= c <= '\r' {
      assert blanks[c as int - 8] == c;
    } else if '\U{1C}' <= c <= '\U{1F}' {
      assert blanks[c as int - 22] == c;
    } else if c == ' ' {
      assert blanks[0] == c;
    }
  }

  predicate AllBlank(s: string) {
    forall i :: 0 <= i < |s| ==> Blank(s[i])
  }

  lemma {:induction false} StripLeftMeaning(s: string) returns (n: nat)
    ensures n <= |s| && StripLeft(s) == s[n..] && AllBlank(s[..n]) && (n < |s| ==> !Blank(s[n]))
  {
    if s != "" {
      BlankIsSpace(s[0]);
    }
    hide Blank;
    if s != "" && IsSpace(s[0]) {
      n := StripLeftMeaning(s[1..]);
      assert s[1..][..n] == s[1..n + 1] && s[1..][n..] == s[n + 1..];
      assert s[..n + 1] == [s[0]] + s[1..n + 1];
      n := n + 1;
    } else {
      n := 0;
    }
  }

  lemma {:induction false} StripRightMeaning(s: string) returns (n: nat)
    ensures n <= |s| && StripRight(s) == s[..n] && AllBlank(s[n..]) && (n > 0 ==> !Blank(s[n - 1]))
  {
    if s != "" {
      BlankIsSpace(Last(s));
    }
    hide Blank;
    if s != "" && IsSpace(Last(s)) {
      n := StripRightMeaning(Init(s));
      assert s[n..] == Init(s)[n..] + [Last(s)] && s[..n] == Init(s)[..n];
      hide IsSpace, StripRight;
    } else {
      n := |s|;
    }
  }

  /** Stripping takes off the blanks at both ends and no more. */
  lemma StripMeaning(s: string) returns (from: nat, to: nat)
    ensures from <= to <= |s| && Strip(s) == s[from..to] && AllBlank(s[..from]) && AllBlank(s[to..])
    ensures from < to ==> !Blank(s[from]) && !Blank(s[to - 1])
  {
    hide Blank;
    from := StripLeftMeaning(s);
    var n := StripRightMeaning(s[from..]);
    to := from + n;
    assert s[from..][..n] == s[from..to] && s[from..][n..] == s[to..];
  }

  /** Lowering changes the capitals and nothing else. */
  lemma LowerMeaning(s: string, i: nat, k: nat)
    requires i < |s|
    ensures |Lower(s)| == |s|
    ensures k < 26 && s[i] == "ABCDEFGHIJKLMNOPQRSTUVWXYZ"[k] ==> Lower(s)[i] == "abcdefghijklmnopqrstuvwxyz"[k]
    ensures !('A' <= s[i] <= 'Z') ==> Lower(s)[i] == s[i]
  {
  }

  /** Found at its first occurrence, or nowhere. */
  lemma {:induction false} FindMeaning(hay: string, needle: string, from: nat)
    requires from <= |hay|
    ensures var at := FindFrom(hay, needle, from);
      && (at >= 0 ==> from <= at <= |hay| - |needle| && hay[at..at + |needle|] == needle)
      && (at < 0 ==> at == -1)
      && (forall i: nat :: from <= i && OccursAt(hay, needle, i) ==> 0 <= at <= i)
    decreases |hay| - from
  {
    if from + |needle| <= |hay| && !OccursAt(hay, needle, from) {
      FindMeaning(hay, needle, from + 1);
    }
  }

  lemma {:induction false} WordsRead(word: string, w: string, rest: string)
    requires forall i :: 0 <= i < |w| ==> !Blank(w[i])
    ensures WordsFrom(w + rest, word) == WordsFrom(rest, word + w)
    decreases |w|
  {
    if w == "" {
      assert w + rest == rest && word + w == word;
    } else {
      BlankIsSpace(w[0]);
      assert (w + rest)[1..] == w[1..] + rest && word + [w[0]] + w[1..] == word + w;
      WordsRead(word + [w[0]], w[1..], rest);
    }
  }

  /** The words: leading blanks are skipped, and what stands before the next blank, or the end, is the first one. */
  lemma WordsMeaning(w: string, blank: char, rest: string)
    requires w != "" && Blank(blank) && forall i :: 0 <= i < |w| ==> !Blank(w[i])
    ensures Words("") == [] && Words([blank] + rest) == Words(rest)
    ensures Words(w) == [w] && Words(w + [blank] + rest) == [w] + Words(rest)
  {
    BlankIsSpace(blank);
    hide Blank;
    assert ([blank] + rest)[1..] == rest && [] + WordsFrom(rest, "") == WordsFrom(rest, "");
    WordsRead("", w, "");
    assert w + "" == w && "" + w == w;
    WordsRead("", w, [blank] + rest);
    assert w + [blank] + rest == w + ([blank] + rest);
  }

  /** Python's `sep.join(parts)`. */
  function Join(sep: string, parts: seq<string>): string {
    if parts == [] then ""
    else if |parts| == 1 then parts[0]
    else parts[0] + sep + Join(sep, parts[1..])
  }
}
