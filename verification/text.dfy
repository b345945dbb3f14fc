/** The string operations the controllers apply to request fields before storing them:
    `trim`, `toLowerCase`, the quote-stripping regular expression, character removal and `split`. */
module Text {

  // ---------------------------------------------------------------------------
  // Whitespace and `String.prototype.trim`
  // ---------------------------------------------------------------------------

  /** ECMAScript WhiteSpace and LineTerminator code points: what `trim` removes. */
  predicate IsSpace(c: char)
  {
    || c == ' ' || c == '\t' || c == '\n' || c == '\r' || c == '\U{000B}' || c == '\U{000C}'
    || c == '\U{00A0}' || c == '\U{FEFF}' || c == '\U{1680}' || ('\U{2000}' <= c <= '\U{200A}')
    || c == '\U{2028}' || c == '\U{2029}' || c == '\U{202F}' || c == '\U{205F}' || c == '\U{3000}'
  }

  /** Reference definition of trimming by bounds: every character before `i` and from `j` on is
      whitespace, and a non-empty `s[i..j]` starts and ends with a non-whitespace character. */
  ghost predicate TrimBounds(s: string, i: int, j: int)
  {
    && 0 <= i <= j <= |s|
    && (forall k | 0 <= k < i :: IsSpace(s[k]))
    && (forall k | j <= k < |s| :: IsSpace(s[k]))
    && (i < j ==> !IsSpace(s[i]) && !IsSpace(s[j - 1]))
  }

  /** `r` is `s` with its outer whitespace removed. */
  ghost predicate IsTrimOf(r: string, s: string)
  {
    exists i, j :: TrimBounds(s, i, j) && r == s[i..j]
  }

  /** Length of the longest whitespace prefix. */
  function LeadingSpace(s: string): (n: nat)
    ensures n <= |s|
    ensures forall k | 0 <= k < n :: IsSpace(s[k])
    ensures n == |s| || !IsSpace(s[n])
  {
    if |s| == 0 || !IsSpace(s[0]) then 0
    else
      var m := LeadingSpace(s[1..]);
      assert forall k | 1 <= k < 1 + m :: s[k] == s[1..][k - 1];
      1 + m
  }

  /** Length of the longest whitespace suffix. */
  function TrailingSpace(s: string): (n: nat)
    ensures n <= |s|
    ensures forall k | |s| - n <= k < |s| :: IsSpace(s[k])
    ensures n == |s| || !IsSpace(s[|s| - n - 1])
  {
    if |s| == 0 || !IsSpace(s[|s| - 1]) then 0
    else
      var t := s[..|s| - 1];
      var m := TrailingSpace(t);
      assert forall k | |t| - m <= k < |t| :: s[k] == t[k];
      1 + m
  }

  /** `s.trim()`. */
  function Trim(s: string): (r: string)
    ensures IsTrimOf(r, s)
    ensures |r| <= |s|
  {
    var i := LeadingSpace(s);
    var n := TrailingSpace(s[i..]);
    var j := |s| - n;
    assert forall k | j <= k < |s| :: s[k] == s[i..][k - i];
    assert i < j ==> s[j - 1] == s[i..][|s[i..]| - n - 1];
    assert TrimBounds(s, i, j);
    s[i..j]
  }

  /** The bounds of a trim are determined by the string, up to the empty result. */
  lemma TrimBoundsUnique(s: string, i1: int, j1: int, i2: int, j2: int)
    requires TrimBounds(s, i1, j1) && TrimBounds(s, i2, j2)
    ensures s[i1..j1] == s[i2..j2]
  {
    if i1 < j1 {
      assert i1 == i2 && j1 == j2;
    } else {
      assert i2 == j2;
    }
  }

  /** Hence there is only one trim of a string. */
  lemma TrimOfUnique(a: string, b: string, s: string)
    requires IsTrimOf(a, s) && IsTrimOf(b, s)
    ensures a == b
  {
    var i1, j1 :| TrimBounds(s, i1, j1) && a == s[i1..j1];
    var i2, j2 :| TrimBounds(s, i2, j2) && b == s[i2..j2];
    TrimBoundsUnique(s, i1, j1, i2, j2);
  }

  /** A string with no outer whitespace is its own trim. */
  lemma TrimOfTrimmed(s: string)
    requires s == [] || (!IsSpace(s[0]) && !IsSpace(s[|s| - 1]))
    ensures Trim(s) == s
  {
    assert TrimBounds(s, 0, |s|) && s[0..|s|] == s;
    TrimOfUnique(Trim(s), s, s);
  }

  /** A string with a non-whitespace character does not trim to nothing. */
  lemma TrimNonEmpty(s: string, k: int)
    requires 0 <= k < |s| && !IsSpace(s[k])
    ensures Trim(s) != []
  {
    var r := Trim(s);
    assert IsTrimOf(r, s);
    var i, j :| TrimBounds(s, i, j) && r == s[i..j];
    assert i <= k < j;
    assert |r| == j - i;
  }

  /** Trimming twice is trimming once. */
  lemma TrimIdempotent(s: string)
    ensures Trim(Trim(s)) == Trim(s)
  {
    var r := Trim(s);
    var i, j :| TrimBounds(s, i, j) && r == s[i..j];
    assert r != [] ==> r[0] == s[i] && r[|r| - 1] == s[j - 1];
    TrimOfTrimmed(r);
  }

  // ---------------------------------------------------------------------------
  // `String.prototype.toLowerCase` (ASCII letters)
  // ---------------------------------------------------------------------------

  function LowerChar(c: char): char
  {
    if 'A' <= c <= 'Z' then (c as int + 32) as char else c
  }

  /** `s.toLowerCase()`, restricted to the ASCII letters. */
  function Lower(s: string): (r: string)
    ensures |r| == |s|
    ensures forall i | 0 <= i < |s| :: r[i] == LowerChar(s[i])
  {
    seq(|s|, i requires 0 <= i < |s| => LowerChar(s[i]))
  }

  lemma LowerIdempotent(s: string)
    ensures Lower(Lower(s)) == Lower(s)
  {
  }

  /** Lower-casing never turns a character into whitespace or back, so `toLowerCase` and `trim`
      commute: the order of Mongoose's `lowercase` and `trim` setters does not matter. */
  lemma TrimLowerCommute(s: string)
    ensures Trim(Lower(s)) == Lower(Trim(s))
  {
    var r := Trim(s);
    var i, j :| TrimBounds(s, i, j) && r == s[i..j];
    var l := Lower(s);
    LowerKeepsBounds(s, i, j);
    LowerSlice(s, i, j);
    TrimOfUnique(Trim(l), Lower(r), l);
  }

  /** Lower-casing keeps the whitespace positions, so it keeps the trim bounds. */
  lemma LowerKeepsBounds(s: string, i: int, j: int)
    requires TrimBounds(s, i, j)
    ensures TrimBounds(Lower(s), i, j)
  {
    var l := Lower(s);
    assert forall k | 0 <= k < |s| :: IsSpace(l[k]) == IsSpace(s[k]);
  }

  /** Lower-casing a slice is slicing the lower-cased string. */
  lemma LowerSlice(s: string, i: int, j: int)
    requires 0 <= i <= j <= |s|
    ensures Lower(s[i..j]) == Lower(s)[i..j]
  {
  }

  /** The e-mail normal form: `email.toLowerCase().trim()`. */
  function NormalEmail(e: string): string
  {
    Trim(Lower(e))
  }

  /** Normalising an already-normalised address changes nothing. */
  lemma NormalEmailIdempotent(e: string)
    ensures NormalEmail(NormalEmail(e)) == NormalEmail(e)
  {
    calc {
      NormalEmail(NormalEmail(e));
      Trim(Lower(Trim(Lower(e))));
      { TrimLowerCommute(Trim(Lower(e))); }
      Lower(Trim(Trim(Lower(e))));
      { TrimIdempotent(Lower(e)); }
      Lower(Trim(Lower(e)));
      { TrimLowerCommute(e); }
      Lower(Lower(Trim(e)));
      { LowerIdempotent(Trim(e)); }
      Lower(Trim(e));
      { TrimLowerCommute(e); }
      NormalEmail(e);
    }
  }

  // ---------------------------------------------------------------------------
  // `s.replace(/^["']|["']$/g, '')`
  // ---------------------------------------------------------------------------

  predicate IsQuote(c: char)
  {
    c == '"' || c == '\''
  }

  /** Removes one leading and one trailing quote character, when present. */
  function StripQuotes(s: string): (r: string)
    ensures |r| <= |s| <= |r| + 2
    ensures r == s[..|r|] || (1 + |r| <= |s| && r == s[1..1 + |r|])
    ensures |s| > 0 && !IsQuote(s[0]) ==> r == s[..|r|]
  {
    var t := if |s| > 0 && IsQuote(s[0]) then s[1..] else s;
    if |t| > 0 && IsQuote(t[|t| - 1]) then t[..|t| - 1] else t
  }

  /** Stripping undoes one layer of quoting, whatever the quoted text is. */
  lemma StripQuotesUnwraps(q1: char, s: string, q2: char)
    requires IsQuote(q1) && IsQuote(q2)
    ensures StripQuotes([q1] + s + [q2]) == s
  {
    var w := [q1] + s + [q2];
    assert w[1..] == s + [q2];
    assert (s + [q2])[..|s|] == s;
  }

  /** A string that neither starts nor ends with a quote is left alone. */
  lemma StripQuotesKeepsUnquoted(s: string)
    requires s == [] || (!IsQuote(s[0]) && !IsQuote(s[|s| - 1]))
    ensures StripQuotes(s) == s
  {
  }

  /** The cleaning `controllers/vendorController.js` applies to a present field:
      strip one pair of quotes, then trim. */
  function Clean(s: string): (r: string)
    ensures IsTrimOf(r, StripQuotes(s))
  {
    Trim(StripQuotes(s))
  }

  /** Cleaning a quoted string yields the trimmed contents of the quotes. */
  lemma CleanUnwraps(q1: char, s: string, q2: char)
    requires IsQuote(q1) && IsQuote(q2)
    ensures Clean([q1] + s + [q2]) == Trim(s)
  {
    StripQuotesUnwraps(q1, s, q2);
  }

  /** Only one layer of quotes goes: a doubly quoted text (`"'a'"`) keeps its inner quotes,
      which a second cleaning would remove (`CleanUnwraps`), so cleaning is not idempotent. */
  lemma CleanOneLayer(q1: char, q2: char, q3: char, q4: char, s: string)
    requires IsQuote(q1) && IsQuote(q2) && IsQuote(q3) && IsQuote(q4)
    ensures Clean([q1] + ([q3] + s + [q4]) + [q2]) == [q3] + s + [q4]
  {
    var inner := [q3] + s + [q4];
    StripQuotesUnwraps(q1, inner, q2);
    TrimOfTrimmed(inner);
  }

  /** A quote behind leading whitespace is not stripped: only the trim applies, and the
      quotes survive cleaning. */
  lemma CleanKeepsInnerQuotes(q1: char, s: string, q2: char)
    requires IsQuote(q1) && IsQuote(q2)
    ensures Clean([' ', q1] + s + [q2, ' ']) == [q1] + s + [q2]
  {
    var t := [' ', q1] + s + [q2, ' '];
    var inner := [q1] + s + [q2];
    StripQuotesKeepsUnquoted(t);
    assert t[1..|t| - 1] == inner;
    assert TrimBounds(t, 1, |t| - 1);
    TrimOfUnique(Trim(t), inner, t);
  }

  // ---------------------------------------------------------------------------
  // `s.replace(/[...]/g, '')`
  // ---------------------------------------------------------------------------

  /** `s` with every character of `drop` removed, the others kept in order. */
  function Without(s: string, drop: set<char>): (r: string)
    ensures |r| <= |s|
  {
    if |s| == 0 then []
    else (if s[0] in drop then [] else [s[0]]) + Without(s[1..], drop)
  }

  /** Exactly the characters of `s` outside `drop` survive. */
  lemma {:induction false} WithoutMembers(s: string, drop: set<char>)
    ensures forall c :: c in Without(s, drop) <==> c in s && c !in drop
  {
    if |s| > 0 {
      WithoutMembers(s[1..], drop);
      assert s == [s[0]] + s[1..];
    }
  }

  /** Removing characters distributes over concatenation. */
  lemma {:induction false} WithoutConcat(a: string, b: string, drop: set<char>)
    ensures Without(a + b, drop) == Without(a, drop) + Without(b, drop)
  {
    if |a| > 0 {
      WithoutConcat(a[1..], b, drop);
      assert (a + b)[1..] == a[1..] + b;
    } else {
      assert a + b == b;
    }
  }

  /** One step of `Without` on a known first character. */
  lemma WithoutCons(c: char, t: string, drop: set<char>)
    ensures Without([c] + t, drop) == (if c in drop then [] else [c]) + Without(t, drop)
  {
    assert ([c] + t)[1..] == t;
  }

  /** Removing characters that do not occur changes nothing. */
  lemma {:induction false} WithoutAbsent(s: string, drop: set<char>)
    requires forall c | c in drop :: c !in s
    ensures Without(s, drop) == s
  {
    if |s| > 0 {
      WithoutAbsent(s[1..], drop);
      assert s == [s[0]] + s[1..];
    }
  }

  /** A prefix free of removed characters passes through unchanged. */
  lemma WithoutKeepsPrefix(a: string, t: string, drop: set<char>)
    requires forall c | c in a :: c !in drop
    ensures Without(a + t, drop) == a + Without(t, drop)
  {
    WithoutConcat(a, t, drop);
    WithoutAbsent(a, drop);
  }

  // ---------------------------------------------------------------------------
  // `s.split(sep)` for a one-character separator, and its inverse `join`
  // ---------------------------------------------------------------------------

  /** `s.split(sep)`: the maximal separator-free pieces, one more than there are separators. */
  function Split(s: string, sep: char): (r: seq<string>)
    ensures |r| >= 1
    ensures forall i | 0 <= i < |r| :: sep !in r[i]
  {
    if |s| == 0 then [""]
    else
      var rest := Split(s[1..], sep);
      if s[0] == sep then [""] + rest
      else [[s[0]] + rest[0]] + rest[1..]
  }

  /** There is one more piece than there are separators. */
  lemma {:induction false} SplitCount(s: string, sep: char)
    ensures |Split(s, sep)| == multiset(s)[sep] + 1
  {
    if |s| > 0 {
      SplitCount(s[1..], sep);
      assert s == [s[0]] + s[1..];
    }
  }

  /** `pieces.join(sep)`. */
  function Join(pieces: seq<string>, sep: char): string
  {
    if |pieces| == 0 then ""
    else if |pieces| == 1 then pieces[0]
    else pieces[0] + [sep] + Join(pieces[1..], sep)
  }

  /** Joining the pieces of a split restores the original string. */
  lemma {:induction false} JoinSplit(s: string, sep: char)
    ensures Join(Split(s, sep), sep) == s
  {
    if |s| > 0 {
      var rest := Split(s[1..], sep);
      var r := Split(s, sep);
      JoinSplit(s[1..], sep);
      assert Join(rest, sep) == s[1..];
      if s[0] == sep {
        assert r == [""] + rest;
        assert r[1..] == rest;
        assert Join(r, sep) == "" + [sep] + Join(rest, sep);
      } else if |rest| == 1 {
        assert r == [[s[0]] + rest[0]];
        assert Join(r, sep) == [s[0]] + rest[0];
      } else {
        assert r == [[s[0]] + rest[0]] + rest[1..];
        assert r[1..] == rest[1..];
        assert Join(r, sep) == [s[0]] + rest[0] + [sep] + Join(rest[1..], sep);
        assert Join(rest, sep) == rest[0] + [sep] + Join(rest[1..], sep);
      }
      assert s == [s[0]] + s[1..];
    }
  }

  /** Splitting a separator-free string yields that string alone. */
  lemma {:induction false} SplitNoSep(a: string, sep: char)
    requires sep !in a
    ensures Split(a, sep) == [a]
  {
    if |a| > 0 {
      SplitNoSep(a[1..], sep);
      assert a == [a[0]] + a[1..];
    }
  }

  /** Splitting `a + sep + t` for a separator-free `a` peels off `a`. */
  lemma {:induction false} SplitAfterPiece(a: string, sep: char, t: string)
    requires sep !in a
    ensures Split(a + [sep] + t, sep) == [a] + Split(t, sep)
  {
    if |a| == 0 {
      assert a + [sep] + t == [sep] + t;
      assert ([sep] + t)[1..] == t;
    } else {
      SplitAfterPiece(a[1..], sep, t);
      var w := a + [sep] + t;
      assert w[1..] == a[1..] + [sep] + t;
      assert w[0] == a[0];
      assert [a[0]] + a[1..] == a;
    }
  }

  /** Splitting a join of separator-free pieces gives the pieces back. */
  lemma {:induction false} SplitJoin(pieces: seq<string>, sep: char)
    requires |pieces| >= 1
    requires forall i | 0 <= i < |pieces| :: sep !in pieces[i]
    ensures Split(Join(pieces, sep), sep) == pieces
  {
    if |pieces| == 1 {
      SplitNoSep(pieces[0], sep);
    } else {
      SplitJoin(pieces[1..], sep);
      SplitAfterPiece(pieces[0], sep, Join(pieces[1..], sep));
      assert [pieces[0]] + pieces[1..] == pieces;
    }
  }
}
