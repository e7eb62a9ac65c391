/**
 * String operations of the JavaScript runtime that the modelled code relies
 * on (indexOf, includes, startsWith, endsWith, substring, trim, split and
 * join), written over Dafny strings. Each one is characterised by its
 * contract, so the callers can reason about what it returns.
 */
module Text {

  datatype Option<T> = None | Some(value: T)

  /** `t` occurs in `s` starting at position `i`. */
  predicate OccursAt(s: string, t: string, i: int) {
    0 <= i && i + |t| <= |s| && s[i..i + |t|] == t
  }

  lemma OccursAtChar(s: string, t: string, i: int, k: int)
    requires 0 <= k < |t|
    ensures OccursAt(s, t, i) ==> s[i + k] == t[k]
  {
    if OccursAt(s, t, i) {
      assert s[i..i + |t|][k] == t[k];
    }
  }

  lemma DropPrefix<T>(p: seq<T>, x: seq<T>)
    ensures (p + x)[|p|..] == x
  {
  }

  /** An occurrence inside a slice is an occurrence in the whole string. */
  lemma OccursInSlice(s: string, t: string, a: int, b: int, k: int)
    requires 0 <= a <= b <= |s|
    ensures OccursAt(s[a..b], t, k) ==> OccursAt(s, t, a + k)
  {
    if OccursAt(s[a..b], t, k) {
      forall m | 0 <= m < |t| ensures s[a + k + m] == t[m] {
        assert s[a..b][k..k + |t|][m] == t[m];
      }
      assert s[a + k..a + k + |t|] == t;
    }
  }

  /** A slice in which no occurrence of `t` starts holds no occurrence of it. */
  lemma NoOccurrenceInSlice(s: string, t: string, a: int, b: int)
    requires t != [] && 0 <= a <= b <= |s|
    requires forall k :: a <= k < b ==> !OccursAt(s, t, k)
    ensures !Contains(s[a..b], t)
  {
    forall k ensures !OccursAt(s[a..b], t, k) {
      OccursInSlice(s, t, a, b, k);
    }
  }

  /** A string is its prefix, a known slice `x`, the middle, a known slice `y` and its suffix. */
  lemma Reassemble<T>(s: seq<T>, i: int, a: int, j: int, b: int, x: seq<T>, y: seq<T>)
    requires 0 <= i <= a <= j <= b <= |s| && s[i..a] == x && s[j..b] == y
    ensures s == s[..i] + x + s[a..j] + y + s[b..]
  {
  }

  function IndexOfFrom(s: string, t: string, k: nat): (r: int)
    requires k <= |s|
    ensures r == -1 || (k <= r && OccursAt(s, t, r))
    ensures r == -1 ==> forall i :: k <= i ==> !OccursAt(s, t, i)
    ensures r >= 0 ==> forall i :: k <= i < r ==> !OccursAt(s, t, i)
    decreases |s| - k
  {
    if OccursAt(s, t, k) then k
    else if k == |s| then -1
    else IndexOfFrom(s, t, k + 1)
  }

  /** `s.indexOf(t)`: the first position of `t` in `s`, or -1 when there is none. */
  function IndexOf(s: string, t: string): (r: int)
    ensures r == -1 || (0 <= r && OccursAt(s, t, r))
    ensures r == -1 <==> forall i :: !OccursAt(s, t, i)
    ensures r >= 0 ==> forall i :: i < r ==> !OccursAt(s, t, i)
  {
    IndexOfFrom(s, t, 0)
  }

  /** `s.includes(t)`. */
  predicate Contains(s: string, t: string) {
    IndexOf(s, t) >= 0
  }

  lemma ContainsAt(s: string, t: string, i: int)
    requires OccursAt(s, t, i)
    ensures Contains(s, t)
  {
  }

  /** `s.startsWith(p)`. */
  predicate StartsWith(s: string, p: string) {
    |p| <= |s| && s[..|p|] == p
  }

  /** `s.endsWith(p)`. */
  predicate EndsWith(s: string, p: string) {
    |p| <= |s| && s[|s| - |p|..] == p
  }

  /** `s.lastIndexOf(c)` for a one-character needle. */
  function LastIndexOf(s: string, c: char): (r: int)
    ensures -1 <= r < |s|
    ensures r >= 0 ==> s[r] == c
    ensures forall i :: r < i < |s| ==> s[i] != c
  {
    if s == [] then -1
    else if s[|s| - 1] == c then |s| - 1
    else LastIndexOf(s[..|s| - 1], c)
  }

  function Clamp(x: int, n: nat): (r: nat)
    ensures r <= n
  {
    if x < 0 then 0 else if x > n then n else x
  }

  /**
   * `s.substring(a, b)`: both ends are clamped into the string and
   * swapped when the start lies after the end.
   */
  function Substring(s: string, a: int, b: int): (r: string)
    ensures 0 <= a <= b <= |s| ==> r == s[a..b]
  {
    var x, y := Clamp(a, |s|), Clamp(b, |s|);
    if x <= y then s[x..y] else s[y..x]
  }

  /** Whitespace as JavaScript's `trim` and the regular expression `\s` see it. */
  predicate IsSpace(c: char) {
    c == ' ' || c == '\t' || c == '\n' || c == '\r' || c == '\U{000B}' || c == '\U{000C}'
    || c == '\U{00A0}' || c == '\U{1680}' || ('\U{2000}' <= c <= '\U{200A}')
    || c == '\U{2028}' || c == '\U{2029}' || c == '\U{202F}' || c == '\U{205F}'
    || c == '\U{3000}' || c == '\U{FEFF}'
  }

  function TrimStart(s: string): (r: string)
    ensures |r| <= |s|
    ensures r == [] || !IsSpace(r[0])
    ensures forall i :: 0 <= i < |s| - |r| ==> IsSpace(s[i])
  {
    if s != [] && IsSpace(s[0]) then TrimStart(s[1..]) else s
  }

  /** What `TrimStart` keeps is the end of the text. */
  lemma {:induction false} TrimStartSuffix(s: string)
    ensures TrimStart(s) == s[|s| - |TrimStart(s)|..]
  {
    if s != [] && IsSpace(s[0]) {
      TrimStartSuffix(s[1..]);
      assert s[1..][|s| - 1 - |TrimStart(s)|..] == s[|s| - |TrimStart(s)|..];
    }
  }

  function TrimEnd(s: string): (r: string)
    ensures |r| <= |s| && r == s[..|r|]
    ensures r == [] || !IsSpace(r[|r| - 1])
    ensures forall i :: |r| <= i < |s| ==> IsSpace(s[i])
  {
    if s != [] && IsSpace(s[|s| - 1]) then TrimEnd(s[..|s| - 1]) else s
  }

  /** `s.trim()`. */
  function Trim(s: string): string {
    TrimEnd(TrimStart(s))
  }

  /** `!s.trim()`: the string is empty or consists of whitespace only. */
  predicate IsBlank(s: string) {
    Trim(s) == ""
  }

  lemma {:induction false} BlankIffAllSpace(s: string)
    ensures IsBlank(s) <==> forall i :: 0 <= i < |s| ==> IsSpace(s[i])
  {
    var u := TrimStart(s);
    TrimStartSuffix(s);
    assert u == [] || u[0] == s[|s| - |u|];
  }

  /** The text after the last character that satisfies `sep` (all of `s` when there is none). */
  function AfterLast(s: string, sep: char -> bool): (r: string)
    ensures |r| <= |s|
    ensures forall i :: 0 <= i < |r| ==> r[i] == s[|s| - |r| + i]
    ensures forall i :: 0 <= i < |r| ==> !sep(r[i])
    ensures |r| < |s| ==> sep(s[|s| - |r| - 1])
  {
    if s == [] || sep(s[|s| - 1]) then ""
    else AfterLast(s[..|s| - 1], sep) + [s[|s| - 1]]
  }

  /** The last whitespace-free token is all of `s` or follows a whitespace character. */
  lemma LastTokenMaximal(s: string)
    ensures FollowsSpace(s, AfterLast(s, IsSpace))
  {
    AfterLastSuffix(s, IsSpace);
  }

  /** What `AfterLast` takes is the end of the text. */
  lemma AfterLastSuffix(s: string, sep: char -> bool)
    ensures var r := AfterLast(s, sep); r == s[|s| - |r|..]
  {
    var r := AfterLast(s, sep);
    assert forall i :: 0 <= i < |r| ==> r[i] == s[|s| - |r|..][i];
  }

  /** `r` ends `s` and is either all of it or preceded by whitespace. */
  predicate FollowsSpace(s: string, r: string) {
    |r| <= |s| && s[|s| - |r|..] == r && (|r| == |s| || IsSpace(s[|s| - |r| - 1]))
  }

  /** A character of a suffix is the character of the whole text at the shifted position. */
  lemma SuffixCharAt(t: string, r: string, j: int)
    requires |r| <= |t| && r == t[|t| - |r|..]
    ensures 0 <= j < |r| ==> r[j] == t[|t| - |r| + j]
  {
  }

  /** A whitespace-free token after a whitespace character is what `AfterLast` takes from the end. */
  lemma AfterLastToken(t: string, token: string)
    requires |token| < |t| && t[|t| - |token|..] == token && IsSpace(t[|t| - |token| - 1])
    requires forall i :: 0 <= i < |token| ==> !IsSpace(token[i])
    ensures AfterLast(t, IsSpace) == token
  {
    forall i | 0 <= i < |token|
      ensures token[i] == t[|t| - |token| + i]
    {
      SuffixCharAt(t, token, i);
    }
    AfterLastTokenAt(t, token);
  }

  /** `AfterLastToken`, with the token's characters given position by position. */
  lemma AfterLastTokenAt(t: string, token: string)
    requires |token| < |t| && IsSpace(t[|t| - |token| - 1])
    requires forall i :: 0 <= i < |token| ==> token[i] == t[|t| - |token| + i]
    requires forall i :: 0 <= i < |token| ==> !IsSpace(token[i])
    ensures AfterLast(t, IsSpace) == token
  {
    var r := AfterLast(t, IsSpace);
    NoSpaceInSuffix(t, r);
    NoSpaceInSuffix(t, token);
    assert |r| == |token|;
    assert forall i :: 0 <= i < |token| ==> r[i] == token[i];
  }

  /** Every position a whitespace-free suffix covers holds non-whitespace. */
  lemma NoSpaceInSuffix(t: string, r: string)
    requires |r| <= |t| && forall i :: 0 <= i < |r| ==> r[i] == t[|t| - |r| + i]
    requires forall i :: 0 <= i < |r| ==> !IsSpace(r[i])
    ensures forall q :: |t| - |r| <= q < |t| ==> !IsSpace(t[q])
  {
    forall q | |t| - |r| <= q < |t|
      ensures !IsSpace(t[q])
    {
      assert r[q - (|t| - |r|)] == t[q];
    }
  }

  /** Trimming the front of a text keeps a whitespace-free token at its end. */
  lemma TrimStartKeepsToken(s: string, token: string)
    requires token != [] && |token| <= |s| && s[|s| - |token|..] == token
    requires forall i :: 0 <= i < |token| ==> !IsSpace(token[i])
    ensures var t := TrimStart(s); |token| <= |t| && t[|t| - |token|..] == token && !IsSpace(t[|t| - 1])
  {
    var t := TrimStart(s);
    SuffixCharAt(s, token, |token| - |t| - 1);
    SuffixCharAt(s, token, |token| - 1);
  }

  lemma TrimEndFixed(t: string)
    requires t != [] && !IsSpace(t[|t| - 1])
    ensures TrimEnd(t) == t
  {
  }

  lemma TrimStartFixed(t: string)
    requires t != [] && !IsSpace(t[0])
    ensures TrimStart(t) == t
  {
  }

  /** A text whose last character is not whitespace loses only its leading whitespace to `trim`. */
  lemma TrimIsTrimStart(s: string)
    requires s != [] && !IsSpace(s[|s| - 1])
    ensures Trim(s) == TrimStart(s)
  {
    TrimEndFixed(TrimStart(s));
  }

  /** A text that starts and ends with non-whitespace is unchanged by `trim`. */
  lemma TrimFixed(t: string)
    requires t != [] && !IsSpace(t[0]) && !IsSpace(t[|t| - 1])
    ensures Trim(t) == t
  {
    TrimStartFixed(t);
    TrimEndFixed(t);
  }

  /** A suffix of a text without newlines has none. */
  lemma NoNewlineInSuffix(s: string, t: string)
    requires '\n' !in s && |t| <= |s| && t == s[|s| - |t|..]
    ensures '\n' !in t
  {
    forall i | 0 <= i < |t|
      ensures t[i] != '\n'
    {
      assert t[i] == s[|s| - |t| + i];
    }
  }

  /** A prefix of a text without newlines has none. */
  lemma NoNewlineInPrefix(s: string, t: string)
    requires '\n' !in s && |t| <= |s| && t == s[..|t|]
    ensures '\n' !in t
  {
    forall i | 0 <= i < |t|
      ensures t[i] != '\n'
    {
      assert t[i] == s[i];
    }
  }

  /** Trimming a text without newlines leaves none. */
  lemma TrimKeepsNoNewline(s: string)
    requires '\n' !in s
    ensures '\n' !in Trim(s)
  {
    TrimStartSuffix(s);
    NoNewlineInSuffix(s, TrimStart(s));
    NoNewlineInPrefix(TrimStart(s), Trim(s));
  }

  /** A whitespace-free token preceded by whitespace is the last token of the text's trimmed front. */
  lemma LastTokenAfterTrimStart(s: string, token: string)
    requires token != [] && |token| < |s| && s[|s| - |token|..] == token && IsSpace(s[|s| - |token| - 1])
    requires forall i :: 0 <= i < |token| ==> !IsSpace(token[i])
    ensures AfterLast(TrimStart(s), IsSpace) == token
  {
    TrimStartKeepsToken(s, token);
    TrimStartSuffix(s);
    SuffixLastToken(s, TrimStart(s), token);
  }

  /** A suffix of `s` that ends in the token is the token, or ends in the whitespace and the token. */
  lemma SuffixLastToken(s: string, t: string, token: string)
    requires |t| <= |s| && t == s[|s| - |t|..]
    requires |token| <= |t| && t[|t| - |token|..] == token
    requires |token| < |s| && IsSpace(s[|s| - |token| - 1])
    requires forall i :: 0 <= i < |token| ==> !IsSpace(token[i])
    ensures AfterLast(t, IsSpace) == token
  {
    if |t| == |token| {
      assert t == token;
    } else {
      SuffixCharAt(s, t, |t| - |token| - 1);
      AfterLastToken(t, token);
    }
  }

  /** Count of the occurrences of `c` in `s`. */
  function CountChar(s: string, c: char): nat {
    if s == [] then 0 else (if s[0] == c then 1 else 0) + CountChar(s[1..], c)
  }

  lemma {:induction false} CountCharConcat(a: string, b: string, c: char)
    ensures CountChar(a + b, c) == CountChar(a, c) + CountChar(b, c)
  {
    if a != [] {
      assert (a + b)[0] == a[0] && (a + b)[1..] == a[1..] + b;
      CountCharConcat(a[1..], b, c);
    } else {
      assert a + b == b;
    }
  }

  /** `s.split(c)` for a one-character separator. */
  function Split(s: string, c: char): (r: seq<string>)
    ensures |r| == CountChar(s, c) + 1
    ensures forall k, i :: 0 <= k < |r| && 0 <= i < |r[k]| ==> r[k][i] != c
  {
    if s == [] then [""]
    else
      var rest := Split(s[1..], c);
      if s[0] == c then [""] + rest else [[s[0]] + rest[0]] + rest[1..]
  }

  /** `parts.join(sep)`. */
  function Join(parts: seq<string>, sep: string): string {
    if parts == [] then ""
    else if |parts| == 1 then parts[0]
    else parts[0] + sep + Join(parts[1..], sep)
  }

  lemma JoinConsFirst(x: char, parts: seq<string>, sep: string)
    requires parts != []
    ensures Join([[x] + parts[0]] + parts[1..], sep) == [x] + Join(parts, sep)
  {
    var q := [[x] + parts[0]] + parts[1..];
    assert q[1..] == parts[1..];
  }

  /** Splitting and joining again with the same separator gives the string back. */
  lemma {:induction false} JoinSplit(s: string, c: char)
    ensures Join(Split(s, c), [c]) == s
  {
    if s != [] {
      var rest := Split(s[1..], c);
      JoinSplit(s[1..], c);
      if s[0] == c {
        assert ([""] + rest)[1..] == rest;
      } else {
        JoinConsFirst(s[0], rest, [c]);
      }
      assert s == [s[0]] + s[1..];
    }
  }

  lemma {:induction false} CountCharPositive(s: string, c: char)
    ensures CountChar(s, c) > 0 <==> c in s
  {
    if s != [] {
      CountCharPositive(s[1..], c);
      assert s == [s[0]] + s[1..];
    }
  }

  /** `s.split(c)[parts.length - 1]`: the last piece, which holds no `c`. */
  function LastPiece(s: string, c: char): (l: string)
    ensures forall i :: 0 <= i < |l| ==> l[i] != c
  {
    var r := Split(s, c);
    r[|r| - 1]
  }

  /** The last piece of `s.split(c)` is a suffix of `s`: all of it, or what follows its last `c`. */
  lemma {:induction false} SplitLastSuffix(s: string, c: char)
    ensures IsLastPiece(s, c, LastPiece(s, c))
  {
    if s != [] {
      SplitLastSuffix(s[1..], c);
      LastPieceStep(s, c);
    }
  }

  /** The last piece of `s[1..].split(c)` being a last piece of `s[1..]` makes that of `s` one of `s`. */
  lemma LastPieceStep(s: string, c: char)
    requires s != []
    requires IsLastPiece(s[1..], c, LastPiece(s[1..], c))
    ensures IsLastPiece(s, c, LastPiece(s, c))
  {
    var rest := Split(s[1..], c);
    SplitLastPiece(s, c);
    if |rest| == 1 && s[0] != c {
      SinglePieceWhole(s[1..], c, LastPiece(s[1..], c));
      WholeIsLastPiece(s, c);
    } else {
      if s[0] != c {
        LastPieceProper(s[1..], c);
      }
      LastPieceExtends(s, c, LastPiece(s[1..], c));
    }
  }

  lemma WholeIsLastPiece(s: string, c: char)
    requires s != []
    ensures IsLastPiece(s, c, [s[0]] + s[1..])
  {
    assert [s[0]] + s[1..] == s;
  }

  /** How the last piece of `s.split(c)` comes from that of `s[1..].split(c)`. */
  lemma SplitLastPiece(s: string, c: char)
    requires s != []
    ensures LastPiece(s, c) ==
      if |Split(s[1..], c)| == 1 && s[0] != c then [s[0]] + LastPiece(s[1..], c) else LastPiece(s[1..], c)
  {
  }

  /** A text that splits into one piece has itself as its last piece. */
  lemma SinglePieceWhole(t: string, c: char, l: string)
    requires |Split(t, c)| == 1 && IsLastPiece(t, c, l)
    ensures l == t
  {
    CountCharPositive(t, c);
  }

  /** A text that splits into several pieces has a last piece shorter than itself. */
  lemma LastPieceProper(t: string, c: char)
    requires |Split(t, c)| > 1 && IsLastPiece(t, c, LastPiece(t, c))
    ensures |LastPiece(t, c)| < |t|
  {
    CountCharPositive(t, c);
  }

  /** `l` ends `s` and is all of it or follows a `c`. */
  predicate IsLastPiece(s: string, c: char, l: string) {
    |l| <= |s| && s[|s| - |l|..] == l && (|l| == |s| || s[|s| - |l| - 1] == c)
  }

  /** A last piece of `s[1..]` that is shorter than it, or follows `s[0] == c`, is a last piece of `s`. */
  lemma LastPieceExtends(s: string, c: char, l: string)
    requires s != [] && IsLastPiece(s[1..], c, l)
    ensures s[|s| - |l|..] == l
    ensures |l| < |s| - 1 || s[0] == c ==> IsLastPiece(s, c, l)
  {
    var t := s[1..];
    assert t[|t| - |l|..] == s[|s| - |l|..];
    if |l| < |t| {
      assert s[|s| - |l| - 1] == t[|t| - |l| - 1];
    }
  }

  /** A text without the separator splits into itself alone. */
  lemma {:induction false} SplitNoSeparator(s: string, c: char)
    requires c !in s
    ensures Split(s, c) == [s]
  {
    if s != [] {
      SplitNoSeparator(s[1..], c);
      assert s[0] != c;
      assert [s[0]] + s[1..] == s;
    }
  }

  /** Splitting at the first separator: the text before it is the first piece. */
  lemma {:induction false} SplitAtSeparator(a: string, b: string, c: char)
    requires c !in a
    ensures Split(a + [c] + b, c) == [a] + Split(b, c)
  {
    var s := a + [c] + b;
    if a == [] {
      assert s[0] == c && s[1..] == b;
    } else {
      assert s[0] == a[0] && s[1..] == a[1..] + [c] + b;
      SplitAtSeparator(a[1..], b, c);
      assert [a[0]] + a[1..] == a;
    }
  }

  /** `pieces[k]` of `s.split(c)`, or None where JavaScript reads `undefined`. */
  function Piece(s: string, c: char, k: nat): Option<string> {
    var parts := Split(s, c);
    if k < |parts| then Some(parts[k]) else None
  }

  /** The second piece of `s.split(c)` exists exactly when `s` contains `c`. */
  lemma SecondPieceIffSeparator(s: string, c: char)
    ensures Piece(s, c, 1).Some? <==> c in s
  {
    CountCharPositive(s, c);
  }

  function DigitChar(d: nat): char
    requires d < 10
  {
    "0123456789"[d]
  }

  /** `String(n)` for a natural number: its decimal digits. */
  function NatToString(n: nat): (r: string)
    ensures |r| >= 1
    ensures forall i :: 0 <= i < |r| ==> '0' <= r[i] <= '9'
  {
    if n < 10 then [DigitChar(n)] else NatToString(n / 10) + [DigitChar(n % 10)]
  }

  predicate IsUpper(c: char) {
    'A' <= c <= 'Z'
  }

  predicate IsLatinLetter(c: char) {
    'A' <= c <= 'Z' || 'a' <= c <= 'z'
  }

  /** One character lower-cased: A to Z become a to z, everything else stays. */
  function LowerChar(c: char): (r: char)
    ensures IsUpper(c) ==> 'a' <= r <= 'z'
    ensures !IsUpper(c) ==> r == c
  {
    if IsUpper(c) then (c as int + 32) as char else c
  }

  /** `toLowerCase` restricted to the letters A to Z. */
  function LowerAscii(s: string): (r: string)
    ensures |r| == |s|
    ensures forall i :: 0 <= i < |s| ==> r[i] == LowerChar(s[i])
  {
    if s == [] then "" else [LowerChar(s[0])] + LowerAscii(s[1..])
  }

  /** A needle without Latin letters occurs at a position of the lower-cased text iff it occurs there in the text. */
  lemma OccursLowerAscii(s: string, t: string, i: int)
    requires forall k :: 0 <= k < |t| ==> !IsLatinLetter(t[k])
    ensures OccursAt(LowerAscii(s), t, i) <==> OccursAt(s, t, i)
  {
    var l := LowerAscii(s);
    if 0 <= i && i + |t| <= |s| {
      forall k | 0 <= k < |t| ensures l[i + k] == t[k] <==> s[i + k] == t[k] {
        assert l[i + k] == LowerChar(s[i + k]);
      }
      assert (forall k :: 0 <= k < |t| ==> l[i + k] == t[k]) <==> l[i..i + |t|] == t;
      assert (forall k :: 0 <= k < |t| ==> s[i + k] == t[k]) <==> s[i..i + |t|] == t;
    }
  }

  /** Lower-casing does not change whether a needle without Latin letters occurs. */
  lemma ContainsLowerAscii(s: string, t: string)
    requires forall k :: 0 <= k < |t| ==> !IsLatinLetter(t[k])
    ensures Contains(LowerAscii(s), t) <==> Contains(s, t)
  {
    forall i ensures OccursAt(LowerAscii(s), t, i) <==> OccursAt(s, t, i) {
      OccursLowerAscii(s, t, i);
    }
  }
}

/** Sequence operations of the JavaScript runtime (`Array.prototype.filter`). */
module Sequences {

  /** `s.filter(p)`. */
  function Filter<T>(s: seq<T>, p: T -> bool): (r: seq<T>)
    ensures |r| <= |s|
    ensures forall i :: 0 <= i < |r| ==> r[i] in s && p(r[i])
    ensures forall i :: 0 <= i < |s| && p(s[i]) ==> s[i] in r
  {
    if s == [] then []
    else (if p(s[0]) then [s[0]] else []) + Filter(s[1..], p)
  }

  /** Filtering distributes over concatenation, so it keeps the relative order of what it keeps. */
  lemma {:induction false} FilterConcat<T>(a: seq<T>, b: seq<T>, p: T -> bool)
    ensures Filter(a + b, p) == Filter(a, p) + Filter(b, p)
  {
    if a != [] {
      assert (a + b)[0] == a[0] && (a + b)[1..] == a[1..] + b;
      FilterConcat(a[1..], b, p);
    } else {
      assert a + b == b;
    }
  }

  /** A filter that every element passes is the identity. */
  lemma {:induction false} FilterAll<T>(s: seq<T>, p: T -> bool)
    requires forall i :: 0 <= i < |s| ==> p(s[i])
    ensures Filter(s, p) == s
  {
    if s != [] {
      FilterAll(s[1..], p);
    }
  }

  /** A filter keeps nothing exactly when no element passes it. */
  lemma FilterEmptyIff<T>(s: seq<T>, p: T -> bool)
    ensures Filter(s, p) == [] <==> forall i :: 0 <= i < |s| ==> !p(s[i])
  {
    var r := Filter(s, p);
    if r != [] {
      assert r[0] in s;
    }
  }

  /** A one-element list is kept or dropped as a whole. */
  lemma FilterSingleton<T>(x: T, p: T -> bool)
    ensures Filter([x], p) == if p(x) then [x] else []
  {
    assert [x][1..] == [];
  }

  /** The element at `index` removed (the list unchanged when the index is outside it). */
  function RemoveAt<T>(s: seq<T>, index: int): (r: seq<T>)
    ensures 0 <= index < |s| ==> |r| == |s| - 1
    ensures 0 <= index < |s| ==> forall i :: 0 <= i < index ==> r[i] == s[i]
    ensures 0 <= index < |s| ==> forall i :: index <= i < |r| ==> r[i] == s[i + 1]
    ensures !(0 <= index < |s|) ==> r == s
  {
    if 0 <= index < |s| then s[..index] + s[index + 1..] else s
  }
}
