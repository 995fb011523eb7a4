/** String helpers shared by the scraper scripts and the cleaning script: ASCII
    lower-casing, splitting on one separator character and joining back, the decimal
    text of an integer, and splitting on runs of whitespace. */
module Text {

  /** Python's `str.lower()` on one character, restricted to ASCII letters. */
  function LowerChar(c: char): char {
    if 'A' <= c <= 'Z' then (c as int + 32) as char else c
  }

  predicate IsUpper(c: char) {
    'A' <= c <= 'Z'
  }

  /** `s.lower()`: every ASCII upper-case letter replaced by its lower-case form. */
  function Lower(s: string): (r: string)
    ensures |r| == |s|
  {
    if s == [] then [] else [LowerChar(s[0])] + Lower(s[1..])
  }

  /** Each character is lower-cased on its own, and none is left upper-case. */
  lemma {:induction false} LowerAt(s: string)
    ensures forall i :: 0 <= i < |s| ==> Lower(s)[i] == LowerChar(s[i])
    ensures forall i :: 0 <= i < |s| ==> !IsUpper(Lower(s)[i])
    decreases |s|
  {
    if s != [] {
      LowerAt(s[1..]);
      assert forall i :: 1 <= i < |s| ==> Lower(s)[i] == Lower(s[1..])[i - 1];
    }
  }

  /** Lower-casing twice is lower-casing once. */
  lemma LowerIdempotent(s: string)
    ensures Lower(Lower(s)) == Lower(s)
  {
    var once := Lower(s);
    LowerAt(s);
    LowerAt(once);
    assert forall i :: 0 <= i < |once| ==> LowerChar(once[i]) == once[i];
  }

  // ---------------------------------------------------------------------------
  // Splitting on a separator: Python's `s.split(sep)` with an explicit separator.

  /** The pieces of `s` between occurrences of `sep`; `"a--b"` gives `["a", "", "b"]`
      and the empty string gives `[""]`. */
  function Split(s: string, sep: char): (pieces: seq<string>)
    ensures |pieces| >= 1
    decreases |s|
  {
    if s == [] then [""]
    else
      var rest := Split(s[1..], sep);
      if s[0] == sep then [""] + rest
      else [[s[0]] + rest[0]] + rest[1..]
  }

  /** No piece holds the separator. */
  lemma {:induction false} SplitPiecesFree(s: string, sep: char, i: nat)
    requires i < |Split(s, sep)|
    ensures sep !in Split(s, sep)[i]
    decreases |s|
  {
    if s != [] {
      var rest := Split(s[1..], sep);
      if s[0] == sep {
        if i > 0 {
          SplitPiecesFree(s[1..], sep, i - 1);
        }
      } else if i == 0 {
        SplitPiecesFree(s[1..], sep, 0);
      } else {
        SplitPiecesFree(s[1..], sep, i);
      }
    }
  }

  /** `sep.join(pieces)`. */
  function Join(pieces: seq<string>, sep: char): string
    decreases |pieces|
  {
    if |pieces| == 0 then ""
    else if |pieces| == 1 then pieces[0]
    else pieces[0] + [sep] + Join(pieces[1..], sep)
  }

  /** Joining the pieces with the separator gives back the text. */
  lemma {:induction false} JoinSplit(s: string, sep: char)
    ensures Join(Split(s, sep), sep) == s
    decreases |s|
  {
    if s != [] {
      var rest := Split(s[1..], sep);
      JoinSplit(s[1..], sep);
      if s[0] == sep {
        assert ([""] + rest)[1..] == rest;
      } else if |rest| > 1 {
        var pieces := [[s[0]] + rest[0]] + rest[1..];
        assert pieces[1..] == rest[1..];
        assert Join(rest, sep) == rest[0] + [sep] + Join(rest[1..], sep);
        assert s == [s[0]] + s[1..];
      } else {
        assert s == [s[0]] + s[1..];
      }
    }
  }

  /** There is one more piece than there are separators in the text. */
  lemma {:induction false} SplitCount(s: string, sep: char)
    ensures |Split(s, sep)| == 1 + multiset(s)[sep]
    decreases |s|
  {
    if s != [] {
      SplitCount(s[1..], sep);
      assert s == [s[0]] + s[1..];
      assert multiset(s) == multiset([s[0]]) + multiset(s[1..]);
    }
  }

  /** A text without the separator is a single piece: itself. */
  lemma {:induction false} SplitWithoutSeparator(s: string, sep: char)
    requires sep !in s
    ensures Split(s, sep) == [s]
    decreases |s|
  {
    if s != [] {
      assert sep !in s[1..];
      SplitWithoutSeparator(s[1..], sep);
      assert s == [s[0]] + s[1..];
    }
  }

  /** The last piece is a suffix of the text, free of the separator, and either it is
      the whole text or the character just before it is the separator. */
  lemma {:induction false} SplitLastPiece(s: string, sep: char)
    ensures var pieces := Split(s, sep); var r := pieces[|pieces| - 1];
      && |r| <= |s| && s[|s| - |r|..] == r
      && (|r| < |s| ==> s[|s| - |r| - 1] == sep)
    decreases |s|
  {
    if s != [] {
      var t := s[1..];
      var rest := Split(t, sep);
      SplitLastPiece(t, sep);
      var r := rest[|rest| - 1];
      var all := Split(s, sep);
      if s[0] == sep {
        assert all == [""] + rest;
        assert all[|all| - 1] == r;
        SuffixOfTail(s, t, r, sep);
      } else if |rest| > 1 {
        assert all == [[s[0]] + rest[0]] + rest[1..];
        assert all[|all| - 1] == rest[1..][|rest| - 2];
        SplitCount(t, sep);
        assert sep in multiset(t);
        assert sep in t;
        SplitPiecesFree(t, sep, |rest| - 1);
        assert r != t;
        SuffixOfTail(s, t, r, sep);
      } else {
        SplitCount(t, sep);
        assert sep !in t;
        SplitWithoutSeparator(t, sep);
        assert all == [[s[0]] + t];
        assert s == [s[0]] + t;
      }
    }
  }

  /** A suffix of `s[1..]` that starts after a separator, or follows a leading separator,
      keeps that shape in `s`. */
  lemma SuffixOfTail(s: string, t: string, r: string, sep: char)
    requires s != [] && t == s[1..]
    requires |r| <= |t| && t[|t| - |r|..] == r
    requires |r| < |t| ==> t[|t| - |r| - 1] == sep
    requires |r| == |t| ==> s[0] == sep
    ensures |r| <= |s| && s[|s| - |r|..] == r
    ensures |r| < |s| ==> s[|s| - |r| - 1] == sep
  {
    assert t[|t| - |r|..] == s[|s| - |r|..];
  }

  // ---------------------------------------------------------------------------
  // Decimal text of integers: Python's `str(n)` and `'{}'.format(n)`.

  predicate IsDigit(c: char) {
    '0' <= c <= '9'
  }

  function DigitChar(d: nat): (c: char)
    requires d < 10
    ensures IsDigit(c) && c as int - '0' as int == d
  {
    ('0' as int + d) as char
  }

  /** The digits of `n`, most significant first. */
  function NatText(n: nat): (s: string)
    ensures |s| >= 1
    ensures forall i :: 0 <= i < |s| ==> IsDigit(s[i])
    decreases n
  {
    if n < 10 then [DigitChar(n)] else NatText(n / 10) + [DigitChar(n % 10)]
  }

  /** `str(i)`: a minus sign before the digits of a negative number. */
  function IntText(i: int): string {
    if i < 0 then "-" + NatText(-i) else NatText(i)
  }

  predicate AllDigits(s: string) {
    forall i :: 0 <= i < |s| ==> IsDigit(s[i])
  }

  /** The number a string of decimal digits denotes. */
  function DigitsValue(s: string): nat
    requires AllDigits(s)
    decreases |s|
  {
    if s == [] then 0
    else DigitsValue(s[..|s| - 1]) * 10 + (s[|s| - 1] as int - '0' as int)
  }

  /** Reads back the text `IntText` writes; the partner that shows `IntText` loses nothing. */
  function ParseInt(s: string): int
    requires (|s| > 0 && s[0] == '-' && AllDigits(s[1..])) || AllDigits(s)
  {
    if |s| > 0 && s[0] == '-' then -(DigitsValue(s[1..]) as int) else DigitsValue(s)
  }

  lemma {:induction false} NatTextRoundTrip(n: nat)
    ensures DigitsValue(NatText(n)) == n
    decreases n
  {
    if n >= 10 {
      NatTextRoundTrip(n / 10);
      var s := NatText(n);
      assert s[..|s| - 1] == NatText(n / 10);
    }
  }

  lemma IntTextRoundTrip(i: int)
    ensures var s := IntText(i);
      (((|s| > 0 && s[0] == '-' && AllDigits(s[1..])) || AllDigits(s)) && ParseInt(s) == i)
  {
    if i < 0 {
      NatTextRoundTrip(-i);
      assert IntText(i)[1..] == NatText(-i);
    } else {
      NatTextRoundTrip(i);
    }
  }

  /** Distinct integers have distinct decimal texts. */
  lemma IntTextInjective(i: int, j: int)
    requires i != j
    ensures IntText(i) != IntText(j)
  {
    IntTextRoundTrip(i);
    IntTextRoundTrip(j);
  }

  // ---------------------------------------------------------------------------
  // Whitespace words: Python's `s.split()` with no argument.

  /** The characters `str.isspace()` accepts among the first 256 code points. */
  predicate IsSpace(c: char) {
    var n := c as int;
    n == 32 || 9 <= n <= 13 || 28 <= n <= 31 || n == 0x85 || n == 0xA0
  }

  predicate NoSpace(s: string) {
    forall i :: 0 <= i < |s| ==> !IsSpace(s[i])
  }

  /** The longest prefix of `s` without whitespace. */
  function Token(s: string): (w: string)
    ensures |w| <= |s| && w == s[..|w|] && NoSpace(w)
    ensures |w| < |s| ==> IsSpace(s[|w|])
    decreases |s|
  {
    if s == [] || IsSpace(s[0]) then "" else [s[0]] + Token(s[1..])
  }

  /** The maximal runs of non-whitespace characters of `s`, in order. */
  function Words(s: string): (ws: seq<string>)
    ensures forall i :: 0 <= i < |ws| ==> |ws[i]| > 0 && NoSpace(ws[i])
    decreases |s|
  {
    if s == [] then []
    else if IsSpace(s[0]) then Words(s[1..])
    else
      var w := Token(s);
      [w] + Words(s[|w|..])
  }

  /** A non-empty text without whitespace is one word. */
  lemma WordsOfToken(w: string)
    requires |w| > 0 && NoSpace(w)
    ensures Words(w) == [w]
  {
    assert Token(w) == w;
    assert w[|w|..] == [];
  }

  /** Splitting words joined by a single space gives the words back. */
  lemma {:induction false} WordsOfSpaceJoin(ws: seq<string>)
    requires forall i :: 0 <= i < |ws| ==> |ws[i]| > 0 && NoSpace(ws[i])
    ensures Words(Join(ws, ' ')) == ws
    decreases |ws|
  {
    if |ws| == 1 {
      WordsOfToken(ws[0]);
    } else if |ws| > 1 {
      var rest := Join(ws[1..], ' ');
      assert Join(ws, ' ') == ws[0] + ([' '] + rest);
      WordsAfterWord(ws[0], rest);
      WordsOfSpaceJoin(ws[1..]);
      assert ws == [ws[0]] + ws[1..];
    }
  }

  /** A word followed by a space and more text is the first word of the whole. */
  lemma WordsAfterWord(w: string, rest: string)
    requires |w| > 0 && NoSpace(w)
    ensures Words(w + ([' '] + rest)) == [w] + Words(rest)
  {
    var tail := [' '] + rest;
    var s := w + tail;
    TokenOfPrefix(w, tail);
    assert s[|w|..] == tail;
    assert tail[1..] == rest;
    assert s[0] == w[0];
    assert Words(s) == [w] + Words(tail);
  }

  lemma {:induction false} TokenOfPrefix(w: string, tail: string)
    requires |w| > 0 && NoSpace(w)
    requires |tail| > 0 && IsSpace(tail[0])
    ensures Token(w + tail) == w
    decreases |w|
  {
    var s := w + tail;
    assert s[1..] == w[1..] + tail;
    if |w| > 1 {
      TokenOfPrefix(w[1..], tail);
    } else {
      assert w[1..] == [];
      assert s[1..] == tail;
    }
  }

  /** Words joined by a separator that is not whitespace contain no whitespace; when no
      word is empty or holds the separator, the separator never leads, trails or doubles. */
  lemma {:induction false} JoinShape(ws: seq<string>, sep: char)
    requires !IsSpace(sep)
    requires forall i :: 0 <= i < |ws| ==> |ws[i]| > 0 && NoSpace(ws[i]) && sep !in ws[i]
    ensures var s := Join(ws, sep);
      && NoSpace(s)
      && (|s| > 0 ==> s[0] != sep && s[|s| - 1] != sep)
      && (forall i :: 0 <= i < |s| - 1 ==> !(s[i] == sep && s[i + 1] == sep))
      && (|ws| > 0 ==> |s| > 0)
    decreases |ws|
  {
    if |ws| > 1 {
      JoinShape(ws[1..], sep);
      var rest := Join(ws[1..], sep);
      var s := ws[0] + [sep] + rest;
      assert Join(ws, sep) == s;
      assert |rest| > 0;
      forall i | 0 <= i < |s| - 1
        ensures !(s[i] == sep && s[i + 1] == sep)
      {
        if i < |ws[0]| {
          assert s[i] == ws[0][i];
        } else if i > |ws[0]| {
          assert s[i] == rest[i - |ws[0]| - 1];
          assert s[i + 1] == rest[i - |ws[0]|];
        } else {
          assert s[i + 1] == rest[0];
        }
      }
      assert s[|s| - 1] == rest[|rest| - 1];
      assert s[0] == ws[0][0];
      forall i | 0 <= i < |s| ensures !IsSpace(s[i]) {
        if i < |ws[0]| {
          assert s[i] == ws[0][i];
        } else if i > |ws[0]| {
          assert s[i] == rest[i - |ws[0]| - 1];
        }
      }
    }
  }
}
