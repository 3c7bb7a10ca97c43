/**
 * The parts of java.lang.String and java.lang.Integer that the core relies on:
 * trim(), split(" "), endsWith, replace(",", ""), Integer.parseInt, and the
 * case-insensitive prefix test and name ordering used by the company queries.
 */
module Strings {
  import opened Wrappers

  // ---------------------------------------------------------------- trim()

  /** String.trim() removes every character whose code is at most U+0020. */
  predicate IsTrimmable(c: char) { c <= ' ' }

  function TrimStart(s: string): (r: string)
    ensures |r| <= |s| && r == s[|s| - |r|..]
    ensures forall i :: 0 <= i < |s| - |r| ==> IsTrimmable(s[i])
    ensures r == [] || !IsTrimmable(r[0])
  {
    if s != [] && IsTrimmable(s[0]) then TrimStart(s[1..]) else s
  }

  function TrimEnd(s: string): (r: string)
    ensures |r| <= |s| && r == s[..|r|]
    ensures forall i :: |r| <= i < |s| ==> IsTrimmable(s[i])
    ensures r == [] || !IsTrimmable(r[|r| - 1])
  {
    if s != [] && IsTrimmable(s[|s| - 1]) then TrimEnd(s[..|s| - 1]) else s
  }

  /** String.trim(): the slice left after removing trimmable characters at both ends. */
  function Trim(s: string): (r: string)
    ensures r == [] || (!IsTrimmable(r[0]) && !IsTrimmable(r[|r| - 1]))
    ensures r == [] <==> forall i :: 0 <= i < |s| ==> IsTrimmable(s[i])
    ensures exists a: nat, b: nat :: a <= b <= |s| && r == s[a..b] &&
              (forall i :: 0 <= i < a ==> IsTrimmable(s[i])) && (forall i :: b <= i < |s| ==> IsTrimmable(s[i]))
  {
    var t := TrimStart(s);
    var r := TrimEnd(t);
    TrimSliceOf(s, t, r);
    r
  }

  /**
   * A suffix t of s that drops only trimmable characters and starts with none,
   * followed by a prefix r of t that drops only trimmable characters and ends
   * with none, is the trim of s.
   */
  lemma TrimSliceOf(s: string, t: string, r: string)
    requires |t| <= |s| && t == s[|s| - |t|..]
    requires forall i :: 0 <= i < |s| - |t| ==> IsTrimmable(s[i])
    requires t == [] || !IsTrimmable(t[0])
    requires |r| <= |t| && r == t[..|r|]
    requires forall i :: |r| <= i < |t| ==> IsTrimmable(t[i])
    requires r == [] || !IsTrimmable(r[|r| - 1])
    ensures r == [] || (!IsTrimmable(r[0]) && !IsTrimmable(r[|r| - 1]))
    ensures r == [] <==> forall i :: 0 <= i < |s| ==> IsTrimmable(s[i])
    ensures exists a: nat, b: nat :: a <= b <= |s| && r == s[a..b] &&
              (forall i :: 0 <= i < a ==> IsTrimmable(s[i])) && (forall i :: b <= i < |s| ==> IsTrimmable(s[i]))
  {
    var a: nat := |s| - |t|;
    var b: nat := a + |r|;
    assert forall i :: a <= i < |s| ==> s[i] == t[i - a];
    assert r != [] ==> r[0] == t[0];
    if r == [] {
      assert t == [];
      assert forall i :: 0 <= i < |s| ==> IsTrimmable(s[i]);
    }
    assert r == s[a..b];
  }

  /** Trimming an already trimmed string changes nothing. */
  lemma TrimIdempotent(s: string)
    ensures Trim(Trim(s)) == Trim(s)
  {
    TrimNoop(Trim(s));
  }

  /** A string with no trimmable character at either end is its own trim. */
  lemma TrimNoop(s: string)
    requires s == [] || (!IsTrimmable(s[0]) && !IsTrimmable(s[|s| - 1]))
    ensures Trim(s) == s
  {
    assert TrimStart(s) == s;
    assert TrimEnd(s) == s;
  }

  // ---------------------------------------------------------------- split(" ")

  /** The pieces between single-space separators, empty pieces included. */
  function Pieces(s: string): (r: seq<string>)
    ensures |r| >= 1
    ensures forall k :: 0 <= k < |r| ==> ' ' !in r[k]
  {
    if s == [] then [[]]
    else
      var rest := Pieces(s[1..]);
      if s[0] == ' ' then [[]] + rest
      else [[s[0]] + rest[0]] + rest[1..]
  }

  /** The loop at the end of String.split with limit 0: trailing empty pieces are dropped. */
  function DropTrailingEmpty(ps: seq<string>): (r: seq<string>)
    ensures |r| <= |ps| && r == ps[..|r|]
    ensures r == [] || r[|r| - 1] != []
    ensures forall k :: |r| <= k < |ps| ==> ps[k] == []
  {
    if ps != [] && ps[|ps| - 1] == [] then DropTrailingEmpty(ps[..|ps| - 1]) else ps
  }

  /**
   * String.split(" "): a string containing no space comes back whole (the
   * empty string included); otherwise its pieces, trailing empty ones dropped.
   */
  function Split(s: string): seq<string>
  {
    if ' ' !in s then [s] else DropTrailingEmpty(Pieces(s))
  }

  /** String.join(" ", ts). */
  function Join(ts: seq<string>): string
    requires |ts| >= 1
  {
    if |ts| == 1 then ts[0] else ts[0] + " " + Join(ts[1..])
  }

  /** Joining the pieces again gives back the original string. */
  lemma {:induction false} JoinPieces(s: string)
    ensures Join(Pieces(s)) == s
  {
    if s != [] {
      var rest := Pieces(s[1..]);
      JoinPieces(s[1..]);
      if s[0] == ' ' {
        assert Pieces(s) == [[]] + rest;
        assert Join(Pieces(s)) == [] + " " + Join(rest);
      } else {
        var ps := Pieces(s);
        assert ps == [[s[0]] + rest[0]] + rest[1..];
        if |rest| == 1 {
          assert Join(ps) == [s[0]] + rest[0];
        } else {
          assert ps[1..] == rest[1..];
          assert Join(ps) == [s[0]] + rest[0] + " " + Join(rest[1..]);
          assert Join(rest) == rest[0] + " " + Join(rest[1..]);
        }
      }
    }
  }

  /** A word without spaces is a single piece. */
  lemma {:induction false} PiecesOfWord(w: string)
    requires ' ' !in w
    ensures Pieces(w) == [w]
  {
    if w != [] {
      PiecesOfWord(w[1..]);
      assert [w[0]] + w[1..] == w;
    }
  }

  /** A word without spaces followed by a space and more text splits off as the first piece. */
  lemma {:induction false} PiecesOfWordThenRest(w: string, rest: string)
    requires ' ' !in w
    ensures Pieces(w + " " + rest) == [w] + Pieces(rest)
  {
    if w == [] {
      assert w + " " + rest == [' '] + rest;
      assert (w + " " + rest)[1..] == rest;
    } else {
      var s := w + " " + rest;
      assert s[1..] == w[1..] + " " + rest;
      PiecesOfWordThenRest(w[1..], rest);
      assert [w[0]] + w[1..] == w;
    }
  }

  /** Splitting a join of space-free words gives the words back. */
  lemma {:induction false} PiecesOfJoin(ts: seq<string>)
    requires |ts| >= 1
    requires forall k :: 0 <= k < |ts| ==> ' ' !in ts[k]
    ensures Pieces(Join(ts)) == ts
  {
    if |ts| == 1 {
      PiecesOfWord(ts[0]);
    } else {
      PiecesOfJoin(ts[1..]);
      PiecesOfWordThenRest(ts[0], Join(ts[1..]));
      assert [ts[0]] + ts[1..] == ts;
    }
  }

  /** The last piece is empty exactly when the string is empty or ends in a space. */
  lemma {:induction false} LastPieceEmpty(s: string)
    ensures var ps := Pieces(s); ps[|ps| - 1] == [] <==> s == [] || s[|s| - 1] == ' '
  {
    if s != [] {
      LastPieceEmpty(s[1..]);
      var rest := Pieces(s[1..]);
      if s[0] != ' ' && |rest| == 1 {
        assert Pieces(s) == [[s[0]] + rest[0]];
      }
    }
  }

  /**
   * The round trip the row parser depends on: split(" ") of space-free words
   * joined by single spaces gives the words back, provided the last word is
   * not empty (otherwise Java drops it).
   */
  lemma SplitJoin(ts: seq<string>)
    requires |ts| >= 1
    requires forall k :: 0 <= k < |ts| ==> ' ' !in ts[k]
    requires ts[|ts| - 1] != []
    ensures Split(Join(ts)) == ts
  {
    PiecesOfJoin(ts);
    var s := Join(ts);
    JoinPieces(s);
    LastPieceEmpty(s);
    if ' ' !in s {
      PiecesOfWord(s);
    }
  }

  // ---------------------------------------------------------------- endsWith, replace

  predicate EndsWith(s: string, suffix: string)
  {
    |suffix| <= |s| && s[|s| - |suffix|..] == suffix
  }

  /** s.replace(",", ""): every comma removed, everything else kept in order. */
  function RemoveCommas(s: string): (r: string)
    ensures ',' !in r
    ensures forall c :: c != ',' ==> (c in r <==> c in s)
    ensures |r| <= |s|
  {
    if s == [] then []
    else if s[0] == ',' then RemoveCommas(s[1..])
    else [s[0]] + RemoveCommas(s[1..])
  }

  /**
   * Exactly the commas go: every other character is kept as often as it
   * occurs, and a string without commas comes back unchanged.
   */
  lemma {:induction false} RemoveCommasSpec(s: string)
    ensures multiset(RemoveCommas(s)) == multiset(s)[',' := 0]
    ensures ',' !in s ==> RemoveCommas(s) == s
  {
    if s != [] {
      assert s == [s[0]] + s[1..];
      RemoveCommasSpec(s[1..]);
    }
  }

  /** Removing commas works piece by piece, so the kept characters stay in their order. */
  lemma {:induction false} RemoveCommasAppend(a: string, b: string)
    ensures RemoveCommas(a + b) == RemoveCommas(a) + RemoveCommas(b)
  {
    if a != [] {
      assert (a + b)[0] == a[0];
      assert (a + b)[1..] == a[1..] + b;
      RemoveCommasAppend(a[1..], b);
    } else {
      assert a + b == b;
    }
  }

  // ---------------------------------------------------------------- Integer.parseInt

  const IntMin: int := -0x8000_0000
  const IntMax: int := 0x7fff_ffff

  predicate IsDigit(c: char) { '0' <= c <= '9' }

  predicate AllDigits(s: string) { forall i :: 0 <= i < |s| ==> IsDigit(s[i]) }

  function DigitValue(c: char): nat
    requires IsDigit(c)
  {
    (c as int) - ('0' as int)
  }

  function DigitChar(d: nat): (c: char)
    requires d < 10
    ensures IsDigit(c) && DigitValue(c) == d
  {
    (('0' as int) + d) as char
  }

  /** The value of a decimal numeral, most significant digit first. */
  function DigitsValue(s: string): nat
    requires AllDigits(s)
  {
    if s == [] then 0 else DigitsValue(s[..|s| - 1]) * 10 + DigitValue(s[|s| - 1])
  }

  /**
   * Integer.parseInt(s) over ASCII digits: an optional '-' or '+' sign, then
   * at least one digit, and the value must fit in a 32-bit int; anything else
   * is a NumberFormatException, modelled as None.
   */
  function ParseInt(s: string): (r: Option<int>)
    ensures r.Some? ==> IntMin <= r.value <= IntMax
  {
    var signed := s != [] && (s[0] == '-' || s[0] == '+');
    var digits := if signed then s[1..] else s;
    if digits == [] || !AllDigits(digits) then None
    else
      var n: int := DigitsValue(digits);
      var v := if s[0] == '-' then 0 - n else n;
      if IntMin <= v <= IntMax then Some(v) else None
  }

  /**
   * When parseInt throws: an empty string, a lone sign, or any character
   * after the optional leading sign that is not a digit.
   */
  lemma ParseIntRejects(s: string)
    ensures s == [] || s == "-" || s == "+" ==> ParseInt(s) == None
    ensures forall i :: 0 <= i < |s| && !IsDigit(s[i]) && !(i == 0 && (s[0] == '-' || s[0] == '+')) ==>
              ParseInt(s) == None
    ensures (forall i :: 0 <= i < |s| ==> !IsDigit(s[i])) ==> ParseInt(s) == None
  {
    var signed := s != [] && (s[0] == '-' || s[0] == '+');
    var digits := if signed then s[1..] else s;
    forall i | 0 <= i < |s| && !IsDigit(s[i]) && !(i == 0 && (s[0] == '-' || s[0] == '+'))
      ensures ParseInt(s) == None
    {
      if signed {
        assert digits[i - 1] == s[i];
      } else {
        assert digits[i] == s[i];
      }
    }
    if s != [] && forall i :: 0 <= i < |s| ==> !IsDigit(s[i]) {
      if signed {
        assert digits == [] || !IsDigit(digits[0]);
      } else {
        assert !IsDigit(digits[0]);
      }
    }
  }

  /** Decimal numeral of a natural number, without leading zeros. */
  function NatToString(n: nat): (s: string)
    ensures s != [] && AllDigits(s)
    ensures s[0] != '-' && s[0] != '+'
  {
    if n < 10 then [DigitChar(n)] else NatToString(n / 10) + [DigitChar(n % 10)]
  }

  /** Integer.toString(n). */
  function IntToString(n: int): string
  {
    if n < 0 then "-" + NatToString(-n) else NatToString(n)
  }

  lemma {:induction false} NatToStringValue(n: nat)
    ensures DigitsValue(NatToString(n)) == n
  {
    if n >= 10 {
      NatToStringValue(n / 10);
      var s := NatToString(n);
      assert s[..|s| - 1] == NatToString(n / 10);
    }
  }

  /** parseInt reads back every int that toString writes. */
  lemma ParseIntToString(n: int)
    requires IntMin <= n <= IntMax
    ensures ParseInt(IntToString(n)) == Some(n)
  {
    if n < 0 {
      ParseIntNegative(-n);
    } else {
      ParseIntNatural(n);
    }
  }

  lemma ParseIntNatural(n: nat)
    requires n <= IntMax
    ensures ParseInt(NatToString(n)) == Some(n)
  {
    var s := NatToString(n);
    NatToStringValue(n);
    assert s[0] != '-' && s[0] != '+';
  }

  lemma ParseIntNegative(m: nat)
    requires 1 <= m <= -IntMin
    ensures ParseInt("-" + NatToString(m)) == Some(0 - m as int)
  {
    var s := "-" + NatToString(m);
    NatToStringValue(m);
    assert s[0] == '-';
    assert s[1..] == NatToString(m);
  }

  // ---------------------------------------------------------------- case-insensitive prefix

  /** ASCII upper case folded to lower case; other characters unchanged. */
  function LowerChar(c: char): char
  {
    if 'A' <= c <= 'Z' then ((c as int) + 32) as char else c
  }

  function Lower(s: string): (r: string)
    ensures |r| == |s|
    ensures forall i :: 0 <= i < |s| ==> r[i] == LowerChar(s[i])
  {
    if s == [] then [] else [LowerChar(s[0])] + Lower(s[1..])
  }

  /** The StartingWithIgnoreCase condition of a derived query. */
  predicate StartsWithIgnoreCase(s: string, prefix: string)
  {
    Lower(prefix) <= Lower(s)
  }

  // ---------------------------------------------------------------- ordering by name

  /** Lexicographic order on character codes, the ascending order of a name sort. */
  predicate LessEq(a: string, b: string)
  {
    a == [] || (b != [] && (a[0] < b[0] || (a[0] == b[0] && LessEq(a[1..], b[1..]))))
  }

  lemma {:induction false} LessEqTotal(a: string, b: string)
    ensures LessEq(a, b) || LessEq(b, a)
  {
    if a != [] && b != [] && a[0] == b[0] {
      LessEqTotal(a[1..], b[1..]);
    }
  }
}
