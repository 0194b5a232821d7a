/**
 * The string operations the scoring rules rely on: classifying runes as letters or
 * numbers, trimming ASCII spaces, and measuring a string's length in UTF-8 bytes.
 * A string is a sequence of Unicode scalar values, the runes a Go `range` loop yields.
 */
module Text {

  /**
   * unicode.IsLetter(c) || unicode.IsNumber(c), exact on Latin-1 (U+0000 to U+00FF):
   * ASCII letters and digits, the ordinal indicators, the micro sign, the accented
   * Latin letters, and the superscript digits and vulgar fractions.  Runes above
   * U+00FF are classified as neither.
   */
  predicate IsLetterOrNumber(c: char)
  {
    var u := c as int;
    || ('A' <= c <= 'Z') || ('a' <= c <= 'z') || ('0' <= c <= '9')
    || u == 0xAA || u == 0xB5 || u == 0xBA
    || (0xC0 <= u <= 0xD6) || (0xD8 <= u <= 0xF6) || (0xF8 <= u <= 0xFF)
    || u == 0xB2 || u == 0xB3 || u == 0xB9 || (0xBC <= u <= 0xBE)
  }

  /** The number of runes of s that are letters or numbers. */
  function AlnumCount(s: string): (n: nat)
    ensures n <= |s|
  {
    if s == [] then 0
    else (if IsLetterOrNumber(s[0]) then 1 else 0) + AlnumCount(s[1..])
  }

  /** The positions of s that hold a letter or number. */
  ghost function AlnumPositions(s: string): set<nat>
  {
    set i: nat | i < |s| && IsLetterOrNumber(s[i])
  }

  lemma {:induction false} AlnumCountIsPositions(s: string)
    ensures AlnumCount(s) == |AlnumPositions(s)|
  {
    if s != [] {
      var init, last := s[..|s| - 1], s[|s| - 1];
      AlnumCountIsPositions(init);
      assert s == init + [last];
      AlnumCountAppend(init, [last]);
      assert [last][1..] == [];
      if IsLetterOrNumber(last) {
        assert AlnumPositions(s) == AlnumPositions(init) + {|s| - 1};
      } else {
        assert AlnumPositions(s) == AlnumPositions(init);
      }
    }
  }

  lemma {:induction false} AlnumCountAppend(s: string, t: string)
    ensures AlnumCount(s + t) == AlnumCount(s) + AlnumCount(t)
  {
    if s == [] {
      assert s + t == t;
    } else {
      assert (s + t)[1..] == s[1..] + t;
      AlnumCountAppend(s[1..], t);
    }
  }

  /** Inserting a rune that is neither a letter nor a number anywhere leaves the count unchanged. */
  lemma AlnumCountIgnores(s: string, c: char, t: string)
    requires !IsLetterOrNumber(c)
    ensures AlnumCount(s + [c] + t) == AlnumCount(s + t)
  {
    AlnumCountAppend(s + [c], t);
    AlnumCountAppend(s, [c]);
    AlnumCountAppend(s, t);
    assert [c][..0] == [];
  }

  /** The count reaches the length exactly when every rune is a letter or number. */
  lemma {:induction false} AlnumCountFull(s: string)
    ensures AlnumCount(s) == |s| <==> forall i :: 0 <= i < |s| ==> IsLetterOrNumber(s[i])
  {
    if s != [] {
      var rest := s[1..];
      AlnumCountFull(rest);
      if forall i :: 0 <= i < |s| ==> IsLetterOrNumber(s[i]) {
        assert forall i :: 0 <= i < |rest| ==> IsLetterOrNumber(rest[i]) by {
          forall i | 0 <= i < |rest| ensures IsLetterOrNumber(rest[i]) {
            assert rest[i] == s[i + 1];
          }
        }
      }
    }
  }

  /** strings.TrimLeft(s, " "): drop leading ASCII spaces. */
  function TrimLeft(s: string): string
  {
    if s != [] && s[0] == ' ' then TrimLeft(s[1..]) else s
  }

  /** TrimLeft removes a prefix made only of spaces, and what it keeps does not start with one. */
  lemma {:induction false} TrimLeftShape(s: string)
    ensures var r := TrimLeft(s);
      && |r| <= |s| && r == s[|s| - |r|..]
      && (forall i :: 0 <= i < |s| - |r| ==> s[i] == ' ')
      && (r == [] || r[0] != ' ')
  {
    if s != [] && s[0] == ' ' {
      TrimLeftShape(s[1..]);
      var r := TrimLeft(s[1..]);
      assert s[1..][|s| - 1 - |r|..] == s[|s| - |r|..];
      assert forall i :: 1 <= i < |s| - |r| ==> s[i] == s[1..][i - 1];
    }
  }

  /** strings.TrimRight(s, " "): drop trailing ASCII spaces. */
  function TrimRight(s: string): string
  {
    if s == [] then []
    else
      var rest := TrimRight(s[1..]);
      if rest == [] && s[0] == ' ' then [] else [s[0]] + rest
  }

  /** TrimRight removes a suffix made only of spaces, and what it keeps does not end with one. */
  lemma {:induction false} TrimRightShape(s: string)
    ensures var r := TrimRight(s);
      && |r| <= |s| && r == s[..|r|]
      && (forall i :: |r| <= i < |s| ==> s[i] == ' ')
      && (r == [] || r[|r| - 1] != ' ')
  {
    if s != [] {
      TrimRightShape(s[1..]);
      var rest := TrimRight(s[1..]);
      assert forall i :: 1 <= i < |s| ==> s[i] == s[1..][i - 1];
      if !(rest == [] && s[0] == ' ') {
        assert s[..|rest| + 1] == [s[0]] + s[1..][..|rest|];
      }
    }
  }

  /** strings.Trim(s, " "): drop leading and trailing ASCII spaces, and only those. */
  function Trim(s: string): (r: string)
    ensures r == [] || (r[0] != ' ' && r[|r| - 1] != ' ')
    ensures |r| <= |s|
  {
    TrimLeftShape(s);
    TrimRightShape(TrimLeft(s));
    TrimRight(TrimLeft(s))
  }

  function Spaces(n: nat): (r: string)
  {
    seq(n, _ => ' ')
  }

  lemma {:induction false} TrimLeftPadded(p: nat, t: string)
    requires t == [] || t[0] != ' '
    ensures TrimLeft(Spaces(p) + t) == t
  {
    if p > 0 {
      assert (Spaces(p) + t)[1..] == Spaces(p - 1) + t;
      TrimLeftPadded(p - 1, t);
    } else {
      assert Spaces(p) + t == t;
    }
  }

  lemma {:induction false} TrimRightPadded(t: string, q: nat)
    requires t == [] || t[|t| - 1] != ' '
    ensures TrimRight(t + Spaces(q)) == t
  {
    if t == [] {
      TrimRightSpaces(q);
      assert t + Spaces(q) == Spaces(q);
    } else {
      assert (t + Spaces(q))[1..] == t[1..] + Spaces(q);
      TrimRightPadded(t[1..], q);
      assert t == [t[0]] + t[1..];
    }
  }

  lemma {:induction false} TrimRightSpaces(q: nat)
    ensures TrimRight(Spaces(q)) == []
  {
    if q > 0 {
      assert Spaces(q)[1..] == Spaces(q - 1);
      TrimRightSpaces(q - 1);
    }
  }

  /**
   * Trim is determined by the padding it removes: a string that is p spaces, a middle
   * part that neither starts nor ends with a space, and q spaces trims to the middle part.
   */
  lemma TrimPadded(p: nat, m: string, q: nat)
    requires m == [] || (m[0] != ' ' && m[|m| - 1] != ' ')
    ensures Trim(Spaces(p) + m + Spaces(q)) == m
  {
    if m == [] {
      assert Spaces(p) + m + Spaces(q) == Spaces(p + q) + [];
      TrimLeftPadded(p + q, []);
    } else {
      assert Spaces(p) + m + Spaces(q) == Spaces(p) + (m + Spaces(q));
      TrimLeftPadded(p, m + Spaces(q));
      TrimRightPadded(m, q);
    }
  }

  /**
   * The converse of TrimPadded: every string is the spaces Trim removes from its front,
   * what Trim keeps, and the spaces Trim removes from its back.
   */
  lemma TrimRemovesSpaces(s: string)
    ensures |Trim(s)| <= |TrimLeft(s)| <= |s|
    ensures var p, q := |s| - |TrimLeft(s)|, |TrimLeft(s)| - |Trim(s)|;
      s == Spaces(p) + Trim(s) + Spaces(q)
  {
    var l := TrimLeft(s);
    TrimLeftShape(s);
    TrimRightShape(l);
    SpacesBefore(s, l);
    SpacesAfter(l, TrimRight(l));
  }

  lemma SpacesBefore(s: string, l: string)
    requires |l| <= |s| && l == s[|s| - |l|..]
    requires forall i :: 0 <= i < |s| - |l| ==> s[i] == ' '
    ensures s == Spaces(|s| - |l|) + l
  {
    assert s == s[..|s| - |l|] + l;
  }

  lemma SpacesAfter(l: string, r: string)
    requires |r| <= |l| && r == l[..|r|]
    requires forall i :: |r| <= i < |l| ==> l[i] == ' '
    ensures l == r + Spaces(|l| - |r|)
  {
    assert l == r + l[|r|..];
  }

  /** utf8.RuneLen: the number of bytes UTF-8 uses to encode a rune. */
  function RuneLen(c: char): (n: nat)
    ensures 1 <= n <= 4
  {
    var u := c as int;
    if u < 0x80 then 1 else if u < 0x800 then 2 else if u < 0x10000 then 3 else 4
  }

  /** len(s) for a Go string: its length in UTF-8 bytes. */
  function ByteLength(s: string): (n: nat)
    ensures |s| <= n <= 4 * |s|
  {
    if s == [] then 0 else RuneLen(s[0]) + ByteLength(s[1..])
  }

  /** The byte length of a concatenation is the sum of the byte lengths. */
  lemma {:induction false} ByteLengthAppend(s: string, t: string)
    ensures ByteLength(s + t) == ByteLength(s) + ByteLength(t)
  {
    if s == [] {
      assert s + t == t;
    } else {
      assert (s + t)[0] == s[0] && (s + t)[1..] == s[1..] + t;
      ByteLengthAppend(s[1..], t);
    }
  }

  /** An ASCII string has one byte per rune. */
  lemma {:induction false} ByteLengthAscii(s: string)
    requires forall i :: 0 <= i < |s| ==> s[i] as int < 0x80
    ensures ByteLength(s) == |s|
  {
    if s != [] {
      ByteLengthAscii(s[1..]);
    }
  }
}
