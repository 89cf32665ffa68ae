/**
 * The JavaScript string built-ins the recommendation code relies on:
 * `trim`, `startsWith`, `toLowerCase`, `split(/\s+/)`, `includes` and
 * `String(n)` for an integer `n`.
 */
module JsText {

  /** The code points that ECMAScript counts as WhiteSpace or LineTerminator;
      both `trim` and the regular-expression class `\s` use exactly this set. */
  predicate IsWhitespace(c: char) {
    c == '\t' || c == '\n' || c == '\U{000B}' || c == '\U{000C}' || c == '\r' ||
    c == ' ' || c == '\U{00A0}' || c == '\U{1680}' ||
    ('\U{2000}' <= c <= '\U{200A}') ||
    c == '\U{2028}' || c == '\U{2029}' || c == '\U{202F}' || c == '\U{205F}' ||
    c == '\U{3000}' || c == '\U{FEFF}'
  }

  predicate AllWhitespace(s: string) {
    forall i :: 0 <= i < |s| ==> IsWhitespace(s[i])
  }

  predicate NoWhitespace(s: string) {
    forall i :: 0 <= i < |s| ==> !IsWhitespace(s[i])
  }

  /** The number of whitespace characters `s` starts with. */
  function LeadingWhitespace(s: string): (n: nat)
    ensures n <= |s|
    ensures forall i :: 0 <= i < n ==> IsWhitespace(s[i])
    ensures n == |s| || !IsWhitespace(s[n])
    decreases |s|
  {
    if s != [] && IsWhitespace(s[0]) then
      var m := LeadingWhitespace(s[1..]);
      assert forall i :: 1 <= i < m + 1 ==> s[i] == s[1..][i - 1];
      m + 1
    else 0
  }

  /** The number of whitespace characters `s` ends with. */
  function TrailingWhitespace(s: string): (n: nat)
    ensures n <= |s|
    ensures forall i :: |s| - n <= i < |s| ==> IsWhitespace(s[i])
    ensures n == |s| || !IsWhitespace(s[|s| - n - 1])
    decreases |s|
  {
    if s != [] && IsWhitespace(s[|s| - 1]) then
      var m := TrailingWhitespace(s[..|s| - 1]);
      assert forall i :: |s| - 1 - m <= i < |s| - 1 ==> s[i] == s[..|s| - 1][i];
      m + 1
    else 0
  }

  /** Leading whitespace removed: what is dropped is all whitespace and what
      remains does not start with whitespace. */
  function TrimStart(s: string): (r: string)
    ensures |r| <= |s| && r == s[|s| - |r|..]
    ensures AllWhitespace(s[..|s| - |r|])
    ensures r == [] || !IsWhitespace(r[0])
  {
    var n := LeadingWhitespace(s);
    assert forall i :: 0 <= i < n ==> s[..n][i] == s[i];
    s[n..]
  }

  /** Trailing whitespace removed: what is dropped is all whitespace and what
      remains does not end with whitespace. */
  function TrimEnd(s: string): (r: string)
    ensures |r| <= |s| && r == s[..|r|]
    ensures AllWhitespace(s[|r|..])
    ensures r == [] || !IsWhitespace(r[|r| - 1])
  {
    var n := TrailingWhitespace(s);
    var k := |s| - n;
    assert forall i :: k <= i < |s| ==> s[k..][i - k] == s[i];
    s[..k]
  }

  /** `String.prototype.trim`. */
  function Trim(s: string): string {
    TrimEnd(TrimStart(s))
  }

  /** A string trims to nothing exactly when it is whitespace throughout. */
  lemma TrimEmptyIff(s: string)
    ensures Trim(s) == [] <==> AllWhitespace(s)
  {
    var t := TrimStart(s);
    assert t != [] ==> t[0] == s[|s| - |t|];
    if Trim(s) == [] {
      assert t[0..] == t;
      assert t == [];
      assert s[..|s| - |t|] == s;
    }
  }

  predicate StartsWith(s: string, prefix: string) {
    |prefix| <= |s| && s[..|prefix|] == prefix
  }

  predicate EndsWith(s: string, suffix: string) {
    |suffix| <= |s| && s[|s| - |suffix|..] == suffix
  }

  /** `toLowerCase` on one character; only the ASCII letters are mapped. */
  function LowerChar(c: char): char {
    if 'A' <= c <= 'Z' then (c as int + 32) as char else c
  }

  /** `String.prototype.toLowerCase`, character by character. */
  function Lower(s: string): (r: string) {
    seq(|s|, i requires 0 <= i < |s| => LowerChar(s[i]))
  }

  lemma LowerAppend(a: string, b: string)
    ensures Lower(a + b) == Lower(a) + Lower(b)
  {
    assert forall i :: 0 <= i < |a + b| ==> Lower(a + b)[i] == (Lower(a) + Lower(b))[i];
  }

  /** Lower-casing leaves no ASCII capital and keeps whitespace where it was. */
  lemma LowerShape(s: string)
    ensures |Lower(s)| == |s|
    ensures NoCapital(Lower(s))
    ensures forall i :: 0 <= i < |s| ==> (IsWhitespace(Lower(s)[i]) <==> IsWhitespace(s[i]))
  {
  }

  /** `s.split(/\s+/)` with `piece` holding the characters of the current piece
      seen so far: every maximal run of whitespace separates two pieces, so a
      leading or trailing run gives an empty first or last piece. */
  function SplitFrom(s: string, piece: string): (r: seq<string>)
    ensures |r| >= 1
    decreases |s|
  {
    if s == [] then [piece]
    else if IsWhitespace(s[0]) then [piece] + SplitFrom(TrimStart(s[1..]), "")
    else SplitFrom(s[1..], piece + [s[0]])
  }

  /** `String.prototype.split(/\s+/)`. */
  function Split(s: string): seq<string> {
    SplitFrom(s, "")
  }

  /** The pieces joined with `sep` between them: `Array.prototype.join`. */
  function Join(pieces: seq<string>, sep: string): string
    decreases |pieces|
  {
    if pieces == [] then ""
    else if |pieces| == 1 then pieces[0]
    else pieces[0] + sep + Join(pieces[1..], sep)
  }

  /** Joining two non-empty lists of pieces is joining each and putting one
      separator between the results. */
  lemma {:induction false} JoinAppend(xs: seq<string>, ys: seq<string>, sep: string)
    requires xs != [] && ys != []
    ensures Join(xs + ys, sep) == Join(xs, sep) + sep + Join(ys, sep)
    decreases |xs|
  {
    var zs := xs + ys;
    assert zs[0] == xs[0];
    if |xs| == 1 {
      assert zs[1..] == ys;
    } else {
      assert zs[1..] == xs[1..] + ys;
      JoinAppend(xs[1..], ys, sep);
      var a, j1, jy := xs[0], Join(xs[1..], sep), Join(ys, sep);
      assert Join(zs, sep) == a + sep + (j1 + sep + jy);
      assert Join(xs, sep) == a + sep + j1;
      ConcatAssoc(a + sep, j1 + sep, jy);
    }
  }

  lemma ConcatAssoc(p: string, q: string, r: string)
    ensures p + (q + r) == (p + q) + r
  {
  }

  lemma JoinFour(a: string, b: string, c: string, d: string, sep: string)
    ensures Join([a, b, c, d], sep) == a + sep + b + sep + c + sep + d
  {
    assert [a, b, c, d][1..] == [b, c, d];
    assert [b, c, d][1..] == [c, d];
    assert [c, d][1..] == [d];
    assert Join([c, d], sep) == c + sep + d;
    assert Join([b, c, d], sep) == b + sep + (c + sep + d);
  }

  /** The text with every maximal run of whitespace replaced by one space. */
  function Collapse(s: string): string
    decreases |s|
  {
    if s == [] then ""
    else if IsWhitespace(s[0]) then " " + Collapse(TrimStart(s[1..]))
    else [s[0]] + Collapse(s[1..])
  }

  lemma {:induction false} SplitFromJoin(s: string, piece: string)
    ensures Join(SplitFrom(s, piece), " ") == piece + Collapse(s)
    decreases |s|
  {
    if s == [] {
    } else if IsWhitespace(s[0]) {
      var t := TrimStart(s[1..]);
      SplitFromJoin(t, "");
      JoinAfterSpace(piece, SplitFrom(t, ""), Collapse(t));
    } else {
      SplitFromJoin(s[1..], piece + [s[0]]);
      ConcatAssoc(piece, [s[0]], Collapse(s[1..]));
    }
  }

  /** One step of SplitFromJoin at a whitespace character. */
  lemma JoinAfterSpace(piece: string, rest: seq<string>, joined: string)
    requires rest != [] && Join(rest, " ") == joined
    ensures Join([piece] + rest, " ") == piece + (" " + joined)
  {
    assert ([piece] + rest)[1..] == rest;
    ConcatAssoc(piece, " ", joined);
  }

  /** Split is undone by joining with single spaces, up to the length of the
      whitespace runs it removed. */
  lemma SplitJoin(s: string)
    ensures Join(Split(s), " ") == Collapse(s)
  {
    SplitFromJoin(s, "");
  }

  lemma {:induction false} SplitFromPieces(s: string, piece: string)
    requires NoWhitespace(piece)
    ensures forall k :: 0 <= k < |SplitFrom(s, piece)| ==> NoWhitespace(SplitFrom(s, piece)[k])
    decreases |s|
  {
    if s == [] {
    } else if IsWhitespace(s[0]) {
      SplitFromPieces(TrimStart(s[1..]), "");
    } else {
      SplitFromPieces(s[1..], piece + [s[0]]);
    }
  }

  /** No piece of a split contains whitespace. */
  lemma SplitPieces(s: string)
    ensures forall k :: 0 <= k < |Split(s)| ==> NoWhitespace(Split(s)[k])
  {
    SplitFromPieces(s, "");
  }

  /** No ASCII capital letter in `w`. */
  predicate NoCapital(w: string) {
    forall i :: 0 <= i < |w| ==> !('A' <= w[i] <= 'Z')
  }

  /** What is left after dropping a prefix has no capital if the whole had none. */
  lemma NoCapitalSuffix(s: string, t: string)
    requires NoCapital(s) && |t| <= |s| && t == s[|s| - |t|..]
    ensures NoCapital(t)
  {
    forall i | 0 <= i < |t| ensures !('A' <= t[i] <= 'Z') {
      assert t[i] == s[|s| - |t| + i];
    }
  }

  lemma {:induction false} SplitFromCapitals(s: string, piece: string)
    requires NoCapital(s) && NoCapital(piece)
    ensures forall k :: 0 <= k < |SplitFrom(s, piece)| ==> NoCapital(SplitFrom(s, piece)[k])
    decreases |s|
  {
    if s == [] {
    } else if IsWhitespace(s[0]) {
      var t := TrimStart(s[1..]);
      NoCapitalSuffix(s, t);
      SplitFromCapitals(t, "");
    } else {
      var next := piece + [s[0]];
      assert !('A' <= s[0] <= 'Z');
      assert forall i :: 0 <= i < |piece| ==> next[i] == piece[i];
      NoCapitalSuffix(s, s[1..]);
      SplitFromCapitals(s[1..], next);
    }
  }

  /** Splitting a string without capitals gives pieces without capitals. */
  lemma SplitCapitals(s: string)
    requires NoCapital(s)
    ensures forall k :: 0 <= k < |Split(s)| ==> NoCapital(Split(s)[k])
  {
    SplitFromCapitals(s, "");
  }

  lemma {:induction false} SplitFromWord(w: string, rest: string, piece: string)
    requires NoWhitespace(w)
    ensures SplitFrom(w + rest, piece) == SplitFrom(rest, piece + w)
    decreases |w|
  {
    if w == [] {
      assert w + rest == rest && piece + w == piece;
    } else {
      assert (w + rest)[0] == w[0] && !IsWhitespace(w[0]);
      assert (w + rest)[1..] == w[1..] + rest;
      SplitFromWord(w[1..], rest, piece + [w[0]]);
      assert piece + [w[0]] + w[1..] == piece + w;
    }
  }

  /** A word followed by whitespace is the first piece; the split goes on with
      what follows the whitespace. */
  lemma SplitWord(w: string, c: char, rest: string)
    requires NoWhitespace(w) && IsWhitespace(c)
    requires rest == [] || !IsWhitespace(rest[0])
    ensures Split(w + [c] + rest) == [w] + Split(rest)
  {
    var tail := [c] + rest;
    assert w + [c] + rest == w + tail;
    SplitFromWord(w, tail, "");
    assert "" + w == w;
    SplitFromSpace(c, rest, w);
  }

  /** A whitespace character ends the current piece. */
  lemma SplitFromSpace(c: char, rest: string, piece: string)
    requires IsWhitespace(c)
    requires rest == [] || !IsWhitespace(rest[0])
    ensures SplitFrom([c] + rest, piece) == [piece] + SplitFrom(rest, "")
  {
    assert ([c] + rest)[1..] == rest;
    assert TrimStart(rest) == rest;
  }

  lemma JoinStartsWith(pieces: seq<string>, sep: string)
    requires |pieces| >= 1 && pieces[0] != []
    ensures Join(pieces, sep) != [] && Join(pieces, sep)[0] == pieces[0][0]
  {
  }

  /** Joining non-empty words without whitespace by single spaces and
      splitting the result gives the words back. */
  lemma {:induction false} SplitJoinedWords(words: seq<string>)
    requires |words| >= 1
    requires forall k :: 0 <= k < |words| ==> words[k] != [] && NoWhitespace(words[k])
    ensures Split(Join(words, " ")) == words
    decreases |words|
  {
    if |words| == 1 {
      SplitSingle(words[0]);
    } else {
      var rest := Join(words[1..], " ");
      JoinStartsWith(words[1..], " ");
      assert Join(words, " ") == words[0] + [' '] + rest;
      SplitWord(words[0], ' ', rest);
      SplitJoinedWords(words[1..]);
      assert words == [words[0]] + words[1..];
    }
  }

  /** A string without whitespace is a single piece. */
  lemma SplitSingle(w: string)
    requires NoWhitespace(w)
    ensures Split(w) == [w]
  {
    SplitFromWord(w, "", "");
    assert w + "" == w && "" + w == w;
  }

  /** `needle` occurs in `hay` starting at index `i`. */
  predicate OccursAt(hay: string, needle: string, i: int) {
    0 <= i && i + |needle| <= |hay| && hay[i..i + |needle|] == needle
  }

  /** `String.prototype.includes`. */
  predicate Contains(hay: string, needle: string) {
    exists i :: 0 <= i <= |hay| - |needle| && OccursAt(hay, needle, i)
  }

  lemma ContainsLeft(a: string, b: string, needle: string)
    requires Contains(a, needle)
    ensures Contains(a + b, needle)
  {
    var i :| 0 <= i <= |a| - |needle| && OccursAt(a, needle, i);
    assert (a + b)[i..i + |needle|] == a[i..i + |needle|];
    assert OccursAt(a + b, needle, i);
  }

  lemma ContainsRight(a: string, b: string, needle: string)
    requires Contains(b, needle)
    ensures Contains(a + b, needle)
  {
    var i :| 0 <= i <= |b| - |needle| && OccursAt(b, needle, i);
    assert (a + b)[|a| + i..|a| + i + |needle|] == b[i..i + |needle|];
    assert OccursAt(a + b, needle, |a| + i);
  }

  /** A needle without whitespace cannot straddle a whitespace character. */
  lemma ContainsAcross(a: string, c: char, b: string, needle: string)
    requires IsWhitespace(c) && NoWhitespace(needle)
    requires !Contains(a, needle) && !Contains(b, needle)
    ensures !Contains(a + [c] + b, needle)
  {
    var s := a + [c] + b;
    forall i | 0 <= i <= |s| - |needle| ensures !OccursAt(s, needle, i) {
      if i + |needle| <= |a| {
        assert s[i..i + |needle|] == a[i..i + |needle|];
        assert !OccursAt(a, needle, i);
      } else if i > |a| {
        assert s[i..i + |needle|] == b[i - |a| - 1..i - |a| - 1 + |needle|];
        assert !OccursAt(b, needle, i - |a| - 1);
      } else {
        assert s[i..i + |needle|][|a| - i] == c;
      }
    }
  }

  /** A needle whose first three characters never appear together in `hay`
      does not occur in it. */
  lemma NoTrigram(hay: string, needle: string)
    requires |needle| >= 3
    requires forall i :: 0 <= i < |hay| - 2 ==>
               hay[i] != needle[0] || hay[i + 1] != needle[1] || hay[i + 2] != needle[2]
    ensures !Contains(hay, needle)
  {
    forall i | 0 <= i <= |hay| - |needle| ensures !OccursAt(hay, needle, i) {
      var w := hay[i..i + |needle|];
      assert w[0] == hay[i] && w[1] == hay[i + 1] && w[2] == hay[i + 2];
    }
  }

  function DigitChar(d: int): char
    requires 0 <= d < 10
  {
    ('0' as int + d) as char
  }

  /** The decimal numeral of `n`, without leading zeros. */
  function NatToString(n: nat): (r: string)
    ensures |r| >= 1
    ensures n >= 10 ==> |r| >= 2
    ensures forall i :: 0 <= i < |r| ==> '0' <= r[i] <= '9'
    decreases n
  {
    if n < 10 then [DigitChar(n)] else NatToString(n / 10) + [DigitChar(n % 10)]
  }

  /** `String(n)` for an integer `n`. */
  function IntToString(n: int): (r: string)
    ensures r != [] && (r[0] == '-' <==> n < 0)
  {
    if n < 0 then "-" + NatToString(-n) else NatToString(n)
  }

  lemma {:induction false} NatToStringInjective(a: nat, b: nat)
    requires NatToString(a) == NatToString(b)
    ensures a == b
    decreases a
  {
    var s := NatToString(a);
    if a >= 10 && b >= 10 {
      assert s[..|s| - 1] == NatToString(a / 10) == NatToString(b / 10);
      NatToStringInjective(a / 10, b / 10);
      assert s[|s| - 1] == DigitChar(a % 10) == DigitChar(b % 10);
    }
  }

  /** Distinct integers have distinct string forms, so comparing ids by their
      string forms compares the ids. */
  lemma IntToStringInjective(a: int, b: int)
    ensures IntToString(a) == IntToString(b) <==> a == b
  {
    if IntToString(a) == IntToString(b) {
      if a < 0 {
        assert IntToString(a)[1..] == NatToString(-a);
        assert IntToString(b)[1..] == NatToString(-b);
        NatToStringInjective(-a, -b);
      } else {
        NatToStringInjective(a, b);
      }
    }
  }
}
