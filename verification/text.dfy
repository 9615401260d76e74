/**
 * The string operations the operator scripts apply to typed input, with Python's
 * semantics restricted to ASCII: `str.lower`, `str.strip`, `str.split(sep)`,
 * `str.split()` (on whitespace), substring tests (`a in b`) and `int(token)`.
 */
module Text {
  import opened Wrappers

  // ---------------------------------------------------------------- characters

  /** The ASCII characters `str.isspace` accepts. */
  predicate IsSpace(c: char) {
    c == ' ' || c == '\t' || c == '\n' || c == '\r' || c == '\U{B}' || c == '\U{C}'
    || ('\U{1C}' <= c <= '\U{1F}')
  }

  predicate IsDigit(c: char) {
    '0' <= c <= '9'
  }

  function LowerChar(c: char): (d: char)
    ensures 'A' <= c <= 'Z' ==> d as int == c as int + 32
    ensures !('A' <= c <= 'Z') ==> d == c
    ensures !('A' <= d <= 'Z')
  {
    if 'A' <= c <= 'Z' then (c as int + 32) as char else c
  }

  /** `str.lower` on ASCII letters. */
  function Lower(s: string): (r: string)
    ensures |r| == |s|
    ensures forall i :: 0 <= i < |s| ==> r[i] == LowerChar(s[i])
  {
    seq(|s|, i requires 0 <= i < |s| => LowerChar(s[i]))
  }

  /** Lowercasing twice is lowercasing once. */
  lemma LowerIdempotent(s: string)
    ensures Lower(Lower(s)) == Lower(s)
  {
  }

  // ---------------------------------------------------------------- strip

  function StripStart(s: string): (r: string)
    ensures |r| <= |s| && r == s[|s| - |r|..]
    ensures |r| > 0 ==> !IsSpace(r[0])
    ensures forall i :: 0 <= i < |s| - |r| ==> IsSpace(s[i])
    decreases |s|
  {
    if |s| > 0 && IsSpace(s[0]) then StripStart(s[1..]) else s
  }

  function StripEnd(s: string): (r: string)
    ensures |r| <= |s| && r == s[..|r|]
    ensures |r| > 0 ==> !IsSpace(r[|r| - 1])
    ensures forall i :: |r| <= i < |s| ==> IsSpace(s[i])
    decreases |s|
  {
    if |s| > 0 && IsSpace(s[|s| - 1]) then StripEnd(s[..|s| - 1]) else s
  }

  /** How many whitespace characters `str.strip()` removes from the front. */
  function LeadingSpace(s: string): (k: nat)
    ensures k <= |s|
    ensures forall i :: 0 <= i < k ==> IsSpace(s[i])
    ensures k < |s| ==> !IsSpace(s[k])
  {
    |s| - |StripStart(s)|
  }

  /** `str.strip()`: the slice left after removing surrounding whitespace. */
  function Strip(s: string): (r: string)
    ensures LeadingSpace(s) + |r| <= |s|
    ensures r == s[LeadingSpace(s)..LeadingSpace(s) + |r|]
    ensures |r| > 0 ==> !IsSpace(r[0]) && !IsSpace(r[|r| - 1])
    ensures forall i :: LeadingSpace(s) + |r| <= i < |s| ==> IsSpace(s[i])
  {
    var a := StripStart(s);
    var r := StripEnd(a);
    StripSlices(s, a, r);
    r
  }

  lemma StripSlices(s: string, a: string, r: string)
    requires |a| <= |s| && a == s[|s| - |a|..]
    requires |r| <= |a| && r == a[..|r|]
    requires forall i :: |r| <= i < |a| ==> IsSpace(a[i])
    ensures r == s[|s| - |a|..|s| - |a| + |r|]
    ensures forall i :: |s| - |a| + |r| <= i < |s| ==> IsSpace(s[i])
  {
    var k := |s| - |a|;
    forall i | k + |r| <= i < |s| ensures IsSpace(s[i]) {
      assert s[i] == a[i - k];
    }
  }

  /** Stripping twice is stripping once. */
  lemma {:induction false} StripIdempotent(s: string)
    ensures Strip(Strip(s)) == Strip(s)
  {
    var r := Strip(s);
    if |r| > 0 {
      assert StripStart(r) == r;
      assert StripEnd(r) == r;
    }
  }

  /** A string of whitespace strips to the empty string. */
  lemma {:induction false} StripAllSpace(s: string)
    requires forall i :: 0 <= i < |s| ==> IsSpace(s[i])
    ensures Strip(s) == ""
  {
    assert LeadingSpace(s) == |s|;
  }

  /** A string with no whitespace at either end is its own strip. */
  lemma StripOfTrimmed(s: string)
    requires |s| > 0 ==> !IsSpace(s[0]) && !IsSpace(s[|s| - 1])
    ensures Strip(s) == s
  {
    assert StripStart(s) == s;
    assert StripEnd(s) == s;
  }

  // ---------------------------------------------------------------- ordering

  /** `ORDER BY name`, as code-point lexicographic order: `a` sorts no later than `b`. */
  predicate NameLe(a: string, b: string)
    decreases |a|
  {
    |a| == 0 || (|b| > 0 && (a[0] < b[0] || (a[0] == b[0] && NameLe(a[1..], b[1..]))))
  }

  lemma {:induction false} NameLeTotal(a: string, b: string)
    ensures NameLe(a, b) || NameLe(b, a)
    decreases |a|
  {
    if |a| > 0 && |b| > 0 && a[0] == b[0] {
      NameLeTotal(a[1..], b[1..]);
    }
  }

  lemma {:induction false} NameLeTransitive(a: string, b: string, c: string)
    requires NameLe(a, b) && NameLe(b, c)
    ensures NameLe(a, c)
    decreases |a|
  {
    if |a| > 0 && a[0] == b[0] && b[0] == c[0] {
      NameLeTransitive(a[1..], b[1..], c[1..]);
    }
  }

  // ---------------------------------------------------------------- substrings

  predicate OccursAt(hay: string, needle: string, k: int) {
    0 <= k <= |hay| - |needle| && hay[k..k + |needle|] == needle
  }

  /** Python `needle in hay` on strings. */
  predicate Contains(hay: string, needle: string) {
    exists k | 0 <= k <= |hay| - |needle| :: OccursAt(hay, needle, k)
  }

  /** The empty string and the string itself are substrings of every string. */
  lemma ContainsTrivial(s: string)
    ensures Contains(s, "") && Contains(s, s)
  {
    assert OccursAt(s, "", 0);
    assert OccursAt(s, s, 0);
  }

  /** A substring is never longer than the string containing it. */
  lemma ContainsShorter(hay: string, needle: string)
    requires Contains(hay, needle)
    ensures |needle| <= |hay|
  {
  }

  // ---------------------------------------------------------------- splitting

  /** `s.split(sep)` for a one-character separator: the pieces between separators, empty ones kept. */
  function SplitOn(s: string, sep: char): (pieces: seq<string>)
    ensures |pieces| > 0
    ensures forall i :: 0 <= i < |pieces| ==> sep !in pieces[i]
    decreases |s|
  {
    if sep !in s then [s]
    else
      var k := FirstIndex(s, sep);
      [s[..k]] + SplitOn(s[k + 1..], sep)
  }

  function FirstIndex(s: string, c: char): (k: nat)
    requires c in s
    ensures k < |s| && s[k] == c && c !in s[..k]
    decreases |s|
  {
    if s[0] == c then 0
    else
      assert c in s[1..];
      var k := FirstIndex(s[1..], c);
      assert s[..k + 1] == [s[0]] + s[1..][..k];
      k + 1
  }

  /** `sep.join(pieces)`. */
  function Join(pieces: seq<string>, sep: char): (s: string)
    decreases |pieces|
  {
    if |pieces| == 0 then ""
    else if |pieces| == 1 then pieces[0]
    else pieces[0] + [sep] + Join(pieces[1..], sep)
  }

  /** Splitting and joining back on the same separator gives the input. */
  lemma {:induction false} JoinSplit(s: string, sep: char)
    ensures Join(SplitOn(s, sep), sep) == s
    decreases |s|
  {
    if sep in s {
      var k := FirstIndex(s, sep);
      JoinSplit(s[k + 1..], sep);
      assert s == s[..k] + [sep] + s[k + 1..];
    }
  }

  /** Joining pieces free of the separator and splitting again gives the pieces. */
  lemma {:induction false} SplitJoin(pieces: seq<string>, sep: char)
    requires |pieces| > 0
    requires forall i :: 0 <= i < |pieces| ==> sep !in pieces[i]
    ensures SplitOn(Join(pieces, sep), sep) == pieces
    decreases |pieces|
  {
    if |pieces| > 1 {
      var p := pieces[0];
      var rest := Join(pieces[1..], sep);
      assert Join(pieces, sep) == p + ([sep] + rest);
      SplitAfterPiece(p, rest, sep);
      SplitJoin(pieces[1..], sep);
      assert pieces == [p] + pieces[1..];
    }
  }

  lemma SplitAfterPiece(p: string, rest: string, sep: char)
    requires sep !in p
    ensures SplitOn(p + ([sep] + rest), sep) == [p] + SplitOn(rest, sep)
  {
    var s := p + ([sep] + rest);
    FirstIndexOfPrefix(p, [sep] + rest, sep);
    assert s[..|p|] == p;
    assert s[|p| + 1..] == rest;
  }

  lemma {:induction false} FirstIndexOfPrefix(a: string, b: string, c: char)
    requires c !in a && |b| > 0 && b[0] == c
    ensures c in a + b && FirstIndex(a + b, c) == |a|
    decreases |a|
  {
    assert (a + b)[|a|] == c;
    if |a| > 0 {
      assert (a + b)[1..] == a[1..] + b;
      FirstIndexOfPrefix(a[1..], b, c);
    }
  }

  /** A non-empty run of non-whitespace characters. */
  predicate IsWord(w: string) {
    |w| > 0 && forall j :: 0 <= j < |w| ==> !IsSpace(w[j])
  }

  /** `s.split()`: the maximal runs of non-whitespace characters. */
  function SplitWhitespace(s: string): (words: seq<string>)
    ensures forall i :: 0 <= i < |words| ==> IsWord(words[i])
    decreases |s|
  {
    var t := StripStart(s);
    if |t| == 0 then []
    else
      var n := WordLength(t);
      FirstWord(t);
      [t[..n]] + SplitWhitespace(t[n..])
  }

  lemma FirstWord(t: string)
    requires |t| > 0 && !IsSpace(t[0])
    ensures WordLength(t) > 0 && IsWord(t[..WordLength(t)])
  {
    var w := t[..WordLength(t)];
    assert forall j :: 0 <= j < |w| ==> w[j] == t[j];
  }

  /** Length of the run of non-whitespace characters that starts `s`. */
  function WordLength(s: string): (n: nat)
    ensures n <= |s|
    ensures forall i :: 0 <= i < n ==> !IsSpace(s[i])
    ensures n < |s| ==> IsSpace(s[n])
    decreases |s|
  {
    if |s| == 0 || IsSpace(s[0]) then 0 else 1 + WordLength(s[1..])
  }

  /** A word splits into itself alone. */
  lemma {:induction false} SplitWhitespaceOfWord(w: string)
    requires IsWord(w)
    ensures SplitWhitespace(w) == [w]
  {
    assert StripStart(w) == w;
    WordLengthOfWord(w);
    assert w[..|w|] == w;
    assert StripStart(w[|w|..]) == [];
  }

  lemma {:induction false} WordLengthOfWord(w: string)
    requires forall i :: 0 <= i < |w| ==> !IsSpace(w[i])
    ensures WordLength(w) == |w|
    decreases |w|
  {
    if |w| > 0 {
      WordLengthOfWord(w[1..]);
    }
  }

  /** A word followed by whitespace: the word is the first run. */
  lemma {:induction false} WordLengthBeforeSpace(w: string, tail: string)
    requires forall i :: 0 <= i < |w| ==> !IsSpace(w[i])
    requires |tail| > 0 && IsSpace(tail[0])
    ensures WordLength(w + tail) == |w|
    decreases |w|
  {
    if |w| > 0 {
      assert (w + tail)[1..] == w[1..] + tail;
      WordLengthBeforeSpace(w[1..], tail);
    } else {
      assert w + tail == tail;
    }
  }

  /** Leading whitespace does not change the split. */
  lemma SplitWhitespaceSkipsSpace(rest: string)
    ensures SplitWhitespace([' '] + rest) == SplitWhitespace(rest)
  {
    var tail := [' '] + rest;
    assert tail[1..] == rest;
    assert StripStart(tail) == StripStart(rest);
  }

  /** A word followed by a space and more text splits into the word and the split of the rest. */
  lemma SplitWhitespaceAfterWord(w: string, rest: string)
    requires IsWord(w)
    ensures SplitWhitespace(w + [' '] + rest) == [w] + SplitWhitespace(rest)
  {
    var tail := [' '] + rest;
    var s := w + tail;
    assert w + [' '] + rest == s;
    assert StripStart(s) == s;
    WordLengthBeforeSpace(w, tail);
    assert s[..|w|] == w;
    assert s[|w|..] == tail;
    SplitWhitespaceSkipsSpace(rest);
  }

  /** Joining words with single spaces and splitting on whitespace gives the words back. */
  lemma {:induction false} SplitWhitespaceJoin(words: seq<string>)
    requires forall i :: 0 <= i < |words| ==> IsWord(words[i])
    ensures SplitWhitespace(Join(words, ' ')) == words
    decreases |words|
  {
    if |words| == 0 {
      assert StripStart("") == "";
    } else if |words| == 1 {
      SplitWhitespaceOfWord(words[0]);
    } else {
      var rest := Join(words[1..], ' ');
      assert Join(words, ' ') == words[0] + [' '] + rest;
      SplitWhitespaceAfterWord(words[0], rest);
      SplitWhitespaceJoin(words[1..]);
      assert words == [words[0]] + words[1..];
    }
  }

  /** A join of non-empty pieces starts with the first piece's first character and ends with the last piece's last. */
  lemma {:induction false} JoinEnds(pieces: seq<string>, sep: char)
    requires |pieces| > 0
    requires forall i :: 0 <= i < |pieces| ==> |pieces[i]| > 0
    ensures |Join(pieces, sep)| > 0
    ensures Join(pieces, sep)[0] == pieces[0][0]
    ensures Join(pieces, sep)[|Join(pieces, sep)| - 1] == pieces[|pieces| - 1][|pieces[|pieces| - 1]| - 1]
    decreases |pieces|
  {
    if |pieces| > 1 {
      JoinEnds(pieces[1..], sep);
      var rest := Join(pieces[1..], sep);
      assert Join(pieces, sep) == pieces[0] + [sep] + rest;
    }
  }

  // ---------------------------------------------------------------- integers

  function DigitsValue(s: string): (n: nat)
    requires forall i :: 0 <= i < |s| ==> IsDigit(s[i])
    decreases |s|
  {
    if |s| == 0 then 0
    else
      assert IsDigit(s[|s| - 1]);
      DigitsValue(s[..|s| - 1]) * 10 + (s[|s| - 1] as int - '0' as int) as nat
  }

  predicate AllDigits(s: string) {
    forall i :: 0 <= i < |s| ==> IsDigit(s[i])
  }

  /**
   * `int(token)` on a token with no surrounding whitespace: an optional sign and at
   * least one decimal digit; anything else is the `ValueError` (`None`).
   */
  function ParseInt(s: string): (r: Option<int>)
    ensures r.Some? <==> (|s| > 0 && AllDigits(s))
                          || (|s| > 1 && (s[0] == '-' || s[0] == '+') && AllDigits(s[1..]))
  {
    if |s| > 0 && AllDigits(s) then Some(DigitsValue(s))
    else if |s| > 1 && s[0] == '-' && AllDigits(s[1..]) then Some(0 - DigitsValue(s[1..]) as int)
    else if |s| > 1 && s[0] == '+' && AllDigits(s[1..]) then Some(DigitsValue(s[1..]))
    else None
  }

  /** Decimal digits of `n`, most significant first, without leading zeros. */
  function ShowNat(n: nat): (s: string)
    ensures |s| > 0 && AllDigits(s)
    ensures DigitsValue(s) == n
    decreases n
  {
    var d := ['0' + (n % 10) as char];
    if n < 10 then d
    else
      var s := ShowNat(n / 10) + d;
      assert s[..|s| - 1] == ShowNat(n / 10);
      s
  }

  /** `str(n)`. */
  function ShowInt(n: int): (s: string)
    ensures |s| > 0
  {
    if n >= 0 then ShowNat(n) else "-" + ShowNat(-n)
  }

  /** Printing an integer and reading it back gives the integer. */
  lemma ParseShowInt(n: int)
    ensures ParseInt(ShowInt(n)) == Some(n)
  {
    if n < 0 {
      var s := ShowInt(n);
      assert s[1..] == ShowNat(-n);
      assert !AllDigits(s) by { assert !IsDigit(s[0]); }
    }
  }

  /** A printed integer is one whitespace-free word. */
  lemma ShowIntIsWord(n: int)
    ensures IsWord(ShowInt(n)) && Strip(ShowInt(n)) == ShowInt(n)
  {
    var s := ShowInt(n);
    forall j | 0 <= j < |s| ensures !IsSpace(s[j]) {
      if n < 0 && j > 0 {
        assert s[j] == ShowNat(-n)[j - 1];
      }
    }
    StripOfTrimmed(s);
  }
}
