/**
 Text utilities over `string` (a `seq<char>`): splitting on a delimiter as
 Rust's `str::split` does, splitting on whitespace as `str::split_whitespace`
 does, and decimal rendering of naturals as `format!("{}", n)` does.
 */
module Text {
  import opened Wrappers

  /** The blank line that separates the head of an HTTP message from its body. */
  const BlankLine: string := "\r\n\r\n"

  // ---------------------------------------------------------------------------
  // Splitting on a delimiter
  // ---------------------------------------------------------------------------

  /** `d` occurs in `s` starting at index `k`. */
  predicate OccursAt(s: string, d: string, k: nat) {
    k + |d| <= |s| && s[k..k + |d|] == d
  }

  /** `d` occurs somewhere in `s`. */
  predicate Contains(s: string, d: string) {
    exists k: nat :: k <= |s| && OccursAt(s, d, k)
  }

  /** An occurrence in a suffix is an occurrence in the whole string, shifted. */
  lemma {:induction false} OccursInSuffix(s: string, d: string, m: nat, k: nat)
    requires m <= |s|
    ensures OccursAt(s[m..], d, k) <==> OccursAt(s, d, m + k)
  {
    if m + k + |d| <= |s| {
      assert s[m..][k..k + |d|] == s[m + k..m + k + |d|];
    }
  }

  /** The index of the leftmost occurrence of `d` in `s`, if there is one. */
  function FindFirst(s: string, d: string): (r: Option<nat>)
    requires |d| > 0
    ensures r.Some? ==> OccursAt(s, d, r.value)
    ensures r.Some? ==> forall k: nat :: k < r.value ==> !OccursAt(s, d, k)
    ensures r.None? <==> !Contains(s, d)
    decreases |s|
  {
    if |s| < |d| then None
    else if s[..|d|] == d then Some(0)
    else
      var rest := FindFirst(s[1..], d);
      forall k: nat ensures OccursAt(s[1..], d, k) <==> OccursAt(s, d, 1 + k) {
        OccursInSuffix(s, d, 1, k);
      }
      assert !OccursAt(s, d, 0);
      match rest
      case None =>
        assert forall k: nat :: !OccursAt(s, d, k) by {
          forall k: nat ensures !OccursAt(s, d, k) {
            if k > 0 { assert !OccursAt(s[1..], d, k - 1); }
          }
        }
        None
      case Some(i) =>
        assert forall k: nat :: k < i + 1 ==> !OccursAt(s, d, k) by {
          forall k: nat | k < i + 1 ensures !OccursAt(s, d, k) {
            if k > 0 { assert !OccursAt(s[1..], d, k - 1); }
          }
        }
        Some(i + 1)
  }

  /** The leftmost occurrence is the one no earlier occurrence precedes. */
  lemma {:induction false} FindFirstIsLeftmost(s: string, d: string, i: nat)
    requires |d| > 0
    requires OccursAt(s, d, i)
    requires forall k: nat :: k < i ==> !OccursAt(s, d, k)
    ensures FindFirst(s, d) == Some(i)
  {
  }

  /** Text without a carriage return holds no blank line. */
  lemma {:induction false} NoBlankLineWithoutReturn(s: string)
    requires forall k :: 0 <= k < |s| ==> s[k] != '\r'
    ensures !Contains(s, BlankLine)
  {
    forall k: nat ensures !OccursAt(s, BlankLine, k) {
      if k + |BlankLine| <= |s| {
        assert s[k..k + |BlankLine|][0] == s[k];
      }
    }
  }

  /** In a head free of carriage returns, the first blank line is the one right after the head. */
  lemma {:induction false} FirstBlankLineAfter(head: string, tail: string)
    requires forall k :: 0 <= k < |head| ==> head[k] != '\r'
    ensures FindFirst(head + BlankLine + tail, BlankLine) == Some(|head|)
  {
    var s := head + BlankLine + tail;
    var i := |head|;
    assert s[i..i + |BlankLine|] == BlankLine;
    forall k: nat | k < i ensures !OccursAt(s, BlankLine, k) {
      assert s[k] == head[k];
    }
    FindFirstIsLeftmost(s, BlankLine, i);
  }

  /** Concatenates `parts` with `d` between each neighbouring pair. */
  function Join(parts: seq<string>, d: string): string
    requires |parts| >= 1
  {
    if |parts| == 1 then parts[0] else parts[0] + d + Join(parts[1..], d)
  }

  /**
   The pieces of `s` between the non-overlapping, leftmost-first occurrences
   of `d`: Rust's `s.split(d).collect()`. There is always at least one piece.
   */
  function Split(s: string, d: string): (parts: seq<string>)
    requires |d| > 0
    ensures |parts| >= 1
    ensures !Contains(s, d) ==> parts == [s]
    decreases |s|
  {
    match FindFirst(s, d)
    case None => [s]
    case Some(i) => [s[..i]] + Split(s[i + |d|..], d)
  }

  /** The text before the leftmost occurrence holds no occurrence. */
  lemma {:induction false} NothingBeforeFirst(s: string, d: string, i: nat)
    requires |d| > 0 && FindFirst(s, d) == Some(i)
    ensures !Contains(s[..i], d)
  {
    forall k: nat ensures !OccursAt(s[..i], d, k) {
      if k + |d| <= i {
        assert s[..i][k..k + |d|] == s[k..k + |d|];
        assert !OccursAt(s, d, k);
      }
    }
  }

  /** The first piece runs up to the leftmost occurrence, or is the whole text. */
  lemma {:induction false} FirstPiece(s: string, d: string)
    requires |d| > 0
    ensures FindFirst(s, d).None? ==> Split(s, d)[0] == s
    ensures FindFirst(s, d).Some? ==> Split(s, d)[0] == s[..FindFirst(s, d).value]
    ensures !Contains(Split(s, d)[0], d)
  {
    match FindFirst(s, d)
    case None =>
      SplitWhenAbsent(s, d);
    case Some(i) =>
      SplitAtFirst(s, d, i);
      NothingBeforeFirst(s, d, i);
  }

  /** No piece of a split contains the delimiter. */
  lemma {:induction false} SplitPiecesAreFree(s: string, d: string)
    requires |d| > 0
    ensures forall i :: 0 <= i < |Split(s, d)| ==> !Contains(Split(s, d)[i], d)
    decreases |s|
  {
    match FindFirst(s, d)
    case None =>
      SplitWhenAbsent(s, d);
    case Some(i) =>
      var rest := s[i + |d|..];
      SplitAtFirst(s, d, i);
      NothingBeforeFirst(s, d, i);
      SplitPiecesAreFree(rest, d);
      var parts := Split(s, d);
      forall j | 0 <= j < |parts| ensures !Contains(parts[j], d) {
        if j > 0 {
          assert parts[j] == Split(rest, d)[j - 1];
        }
      }
  }

  /** Joining the pieces back with the delimiter gives the text that was split. */
  lemma {:induction false} JoinSplit(s: string, d: string)
    requires |d| > 0
    ensures Join(Split(s, d), d) == s
    decreases |s|
  {
    match FindFirst(s, d)
    case None =>
      SplitWhenAbsent(s, d);
    case Some(i) =>
      var rest := s[i + |d|..];
      SplitAtFirst(s, d, i);
      JoinSplit(rest, d);
      var parts := Split(s, d);
      assert parts[0] == s[..i] && parts[1..] == Split(rest, d);
      assert Join(parts, d) == s[..i] + d + rest;
      AroundOccurrence(s, d, i);
  }

  /** Text with `d` at `i` is the part before, then `d`, then the part after. */
  lemma {:induction false} AroundOccurrence(s: string, d: string, i: nat)
    requires OccursAt(s, d, i)
    ensures s == s[..i] + d + s[i + |d|..]
  {
    assert s == s[..i] + s[i..i + |d|] + s[i + |d|..];
  }

  /** Splitting at the leftmost occurrence: the piece before it, then the rest split. */
  lemma {:induction false} SplitAtFirst(s: string, d: string, i: nat)
    requires |d| > 0 && FindFirst(s, d) == Some(i)
    ensures Split(s, d) == [s[..i]] + Split(s[i + |d|..], d)
  {
  }

  /** Text without the delimiter is a single piece. */
  lemma {:induction false} SplitWhenAbsent(s: string, d: string)
    requires |d| > 0 && FindFirst(s, d).None?
    ensures Split(s, d) == [s]
  {
  }

  /**
   The piece that starts right after `d` at `i` ends at the next occurrence
   of `d` or at the end of the text.
   */
  lemma {:induction false} PieceAfter(s: string, d: string, i: nat)
    requires |d| > 0 && i + |d| <= |s|
    ensures var piece := Split(s[i + |d|..], d)[0];
            var end := i + |d| + |piece|;
            && end <= |s|
            && piece == s[i + |d|..end]
            && (end == |s| || OccursAt(s, d, end))
            && !Contains(piece, d)
  {
    var start := i + |d|;
    var rest := s[start..];
    var piece := Split(rest, d)[0];
    FirstPieceEnds(rest, d);
    assert piece == s[start..start + |piece|];
    if |piece| < |rest| {
      OccursInSuffix(s, d, start, |piece|);
    }
  }

  /** The first piece is a prefix that ends at an occurrence or at the end of the text. */
  lemma {:induction false} FirstPieceEnds(s: string, d: string)
    requires |d| > 0
    ensures var piece := Split(s, d)[0];
            && |piece| <= |s|
            && piece == s[..|piece|]
            && (|piece| == |s| || OccursAt(s, d, |piece|))
            && !Contains(piece, d)
  {
    FirstPiece(s, d);
  }

  /**
   Text whose leftmost occurrence of `d` is at `i` splits into at least two
   pieces, the second running from the end of that occurrence to the next
   occurrence or to the end of the text.
   */
  lemma {:induction false} SecondPiece(s: string, d: string, i: nat)
    requires |d| > 0
    requires OccursAt(s, d, i)
    requires forall k: nat :: k < i ==> !OccursAt(s, d, k)
    ensures |Split(s, d)| >= 2
    ensures var end := i + |d| + |Split(s, d)[1]|;
            && end <= |s|
            && Split(s, d)[1] == s[i + |d|..end]
            && (end == |s| || OccursAt(s, d, end))
            && !Contains(Split(s, d)[1], d)
  {
    SplitAtLeftmost(s, d, i);
    var tail := Split(s[i + |d|..], d);
    assert Split(s, d)[1] == tail[0];
    PieceAfter(s, d, i);
  }

  /** Splitting at an occurrence that no earlier occurrence precedes. */
  lemma {:induction false} SplitAtLeftmost(s: string, d: string, i: nat)
    requires |d| > 0
    requires OccursAt(s, d, i)
    requires forall k: nat :: k < i ==> !OccursAt(s, d, k)
    ensures Split(s, d) == [s[..i]] + Split(s[i + |d|..], d)
  {
    FindFirstIsLeftmost(s, d, i);
    SplitAtFirst(s, d, i);
  }

  // ---------------------------------------------------------------------------
  // Splitting on whitespace
  // ---------------------------------------------------------------------------

  /** Unicode White_Space, the set Rust's `char::is_whitespace` recognises. */
  predicate IsWhitespace(c: char) {
    || '\t' <= c <= '\r'
    || c == ' '
    || c == '\U{0085}'
    || c == '\U{00A0}'
    || c == '\U{1680}'
    || '\U{2000}' <= c <= '\U{200A}'
    || c == '\U{2028}'
    || c == '\U{2029}'
    || c == '\U{202F}'
    || c == '\U{205F}'
    || c == '\U{3000}'
  }

  /** A non-empty run of non-whitespace characters. */
  predicate IsWord(t: string) {
    |t| > 0 && forall i :: 0 <= i < |t| ==> !IsWhitespace(t[i])
  }

  /** The length of the longest prefix of `s` free of whitespace. */
  function WordLength(s: string): (n: nat)
    ensures n <= |s|
    ensures forall i :: 0 <= i < n ==> !IsWhitespace(s[i])
    ensures n == |s| || IsWhitespace(s[n])
  {
    if |s| == 0 || IsWhitespace(s[0]) then 0 else 1 + WordLength(s[1..])
  }

  /** The maximal whitespace-free runs of `s`, in order: Rust's `split_whitespace`. */
  function Tokens(s: string): (ts: seq<string>)
    ensures forall i :: 0 <= i < |ts| ==> IsWord(ts[i])
    decreases |s|
  {
    if |s| == 0 then []
    else if IsWhitespace(s[0]) then Tokens(s[1..])
    else
      var n := WordLength(s);
      [s[..n]] + Tokens(s[n..])
  }

  /** Leading whitespace never produces a token. */
  lemma {:induction false} TokensSkipWhitespace(w: string, s: string)
    requires forall i :: 0 <= i < |w| ==> IsWhitespace(w[i])
    ensures Tokens(w + s) == Tokens(s)
    decreases |w|
  {
    if |w| > 0 {
      assert (w + s)[0] == w[0];
      assert (w + s)[1..] == w[1..] + s;
      TokensSkipWhitespace(w[1..], s);
    } else {
      assert w + s == s;
    }
  }

  /** A word followed by whitespace or the end of the text is the next token. */
  lemma {:induction false} TokensOfWord(t: string, s: string)
    requires IsWord(t)
    requires |s| == 0 || IsWhitespace(s[0])
    ensures Tokens(t + s) == [t] + Tokens(s)
  {
    var n := WordLength(t + s);
    assert forall i :: 0 <= i < |t| ==> (t + s)[i] == t[i];
    assert |s| > 0 ==> (t + s)[|t|] == s[0];
    assert n == |t|;
    assert (t + s)[..n] == t;
    assert (t + s)[n..] == s;
  }

  /** The words of `ts` separated by single spaces. */
  function Unwords(ts: seq<string>): string {
    if |ts| == 0 then ""
    else if |ts| == 1 then ts[0]
    else ts[0] + " " + Unwords(ts[1..])
  }

  /** Splitting space-separated words on whitespace gives the words back. */
  lemma {:induction false} TokensOfUnwords(ts: seq<string>)
    requires forall i :: 0 <= i < |ts| ==> IsWord(ts[i])
    ensures Tokens(Unwords(ts)) == ts
  {
    if |ts| == 0 {
    } else if |ts| == 1 {
      TokensOfWord(ts[0], "");
      assert ts[0] + "" == ts[0];
    } else {
      var rest := Unwords(ts[1..]);
      TokensOfUnwords(ts[1..]);
      TokensSkipWhitespace(" ", rest);
      assert ts[0] + " " + rest == ts[0] + (" " + rest);
      TokensOfWord(ts[0], " " + rest);
      assert ts == [ts[0]] + ts[1..];
    }
  }

  /** The non-whitespace characters of `s`, in order. */
  function NonWhitespace(s: string): string {
    if |s| == 0 then ""
    else if IsWhitespace(s[0]) then NonWhitespace(s[1..])
    else [s[0]] + NonWhitespace(s[1..])
  }

  /** All strings of `ts` run together. */
  function Concat(ts: seq<string>): string {
    if |ts| == 0 then "" else ts[0] + Concat(ts[1..])
  }

  lemma {:induction false} NonWhitespaceOfWordPrefix(s: string, n: nat)
    requires n <= |s|
    requires forall i :: 0 <= i < n ==> !IsWhitespace(s[i])
    ensures NonWhitespace(s) == s[..n] + NonWhitespace(s[n..])
    decreases n
  {
    if n == 0 {
      assert s[..0] + s[0..] == s;
    } else {
      var t := s[1..];
      forall i | 0 <= i < n - 1 ensures !IsWhitespace(t[i]) {
        assert t[i] == s[i + 1];
      }
      NonWhitespaceOfWordPrefix(t, n - 1);
      assert t[n - 1..] == s[n..];
      assert s[..n] == [s[0]] + t[..n - 1];
      calc {
        NonWhitespace(s);
        [s[0]] + NonWhitespace(t);
        [s[0]] + (t[..n - 1] + NonWhitespace(s[n..]));
        s[..n] + NonWhitespace(s[n..]);
      }
    }
  }

  /**
   Tokenising loses exactly the whitespace: the tokens, run together, are the
   non-whitespace characters of the text in their original order.
   */
  lemma {:induction false} TokensKeepNonWhitespace(s: string)
    ensures Concat(Tokens(s)) == NonWhitespace(s)
    decreases |s|
  {
    if |s| == 0 {
    } else if IsWhitespace(s[0]) {
      TokensKeepNonWhitespace(s[1..]);
    } else {
      var n := WordLength(s);
      TokensKeepNonWhitespace(s[n..]);
      NonWhitespaceOfWordPrefix(s, n);
      var ts := [s[..n]] + Tokens(s[n..]);
      assert ts[1..] == Tokens(s[n..]);
    }
  }

  // ---------------------------------------------------------------------------
  // Decimal rendering
  // ---------------------------------------------------------------------------

  predicate IsDigit(c: char) {
    '0' <= c <= '9'
  }

  function DigitChar(d: nat): (c: char)
    requires d < 10
    ensures IsDigit(c)
  {
    ['0', '1', '2', '3', '4', '5', '6', '7', '8', '9'][d]
  }

  function DigitValue(c: char): (d: nat)
    requires IsDigit(c)
    ensures d < 10
  {
    (c as int - '0' as int) as nat
  }

  /** Reads a string of decimal digits as a natural number. */
  function ParseDigits(s: string): nat
    requires forall i :: 0 <= i < |s| ==> IsDigit(s[i])
  {
    if |s| == 0 then 0 else 10 * ParseDigits(s[..|s| - 1]) + DigitValue(s[|s| - 1])
  }

  /** The decimal rendering of `n`, without leading zeros, as Rust's `{}` prints it. */
  function NatToString(n: nat): (s: string)
    ensures |s| >= 1
    ensures forall i :: 0 <= i < |s| ==> IsDigit(s[i])
    ensures |s| > 1 ==> s[0] != '0'
  {
    if n < 10 then [DigitChar(n)] else NatToString(n / 10) + [DigitChar(n % 10)]
  }

  /** A digit string that does not start with `0` stands for a positive number. */
  lemma {:induction false} ParseDigitsPositive(s: string)
    requires |s| >= 1 && forall i :: 0 <= i < |s| ==> IsDigit(s[i])
    requires s[0] != '0'
    ensures ParseDigits(s) >= 1
    decreases |s|
  {
    if |s| > 1 {
      ParseDigitsPositive(s[..|s| - 1]);
    }
  }

  /**
   Rendering is the only way to write a number: a digit string without a
   leading zero is the rendering of the number it stands for.
   */
  lemma {:induction false} NatToStringOfDigits(s: string)
    requires |s| >= 1 && forall i :: 0 <= i < |s| ==> IsDigit(s[i])
    requires |s| > 1 ==> s[0] != '0'
    ensures NatToString(ParseDigits(s)) == s
    decreases |s|
  {
    var c := s[|s| - 1];
    var v := DigitValue(c);
    assert DigitChar(v) == c;
    if |s| > 1 {
      var prefix := s[..|s| - 1];
      ParseDigitsPositive(prefix);
      NatToStringOfDigits(prefix);
      var n := ParseDigits(s);
      assert n == 10 * ParseDigits(prefix) + v;
      assert n / 10 == ParseDigits(prefix) && n % 10 == v;
      assert s == prefix + [c];
    }
  }

  /** Reading back a rendered number gives the number. */
  lemma {:induction false} ParseNatToString(n: nat)
    ensures ParseDigits(NatToString(n)) == n
  {
    var s := NatToString(n);
    if n >= 10 {
      ParseNatToString(n / 10);
      assert s[..|s| - 1] == NatToString(n / 10);
    }
  }
}
