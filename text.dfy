/**
 * String operations of the JavaScript runtime that the application relies on,
 * written out so that their edge cases are explicit: the whitespace class of
 * `\s` and `trim`, `split` on a literal separator (left-to-right, non-overlapping),
 * `split(/\s+/)`, `replace(/\s+/g, ' ')`, ASCII case mapping, `slice(0, n)`
 * with its negative-argument rule, and decimal rendering of integers.
 */
module Text {

  /** The code points JavaScript treats as WhiteSpace or LineTerminator (`\s`, `trim`). */
  predicate IsSpace(c: char) {
    || c == '\t' || c == '\n' || c == '\U{000B}' || c == '\U{000C}' || c == '\r' || c == ' '
    || c == '\U{00A0}' || c == '\U{1680}' || ('\U{2000}' <= c <= '\U{200A}')
    || c == '\U{2028}' || c == '\U{2029}' || c == '\U{202F}' || c == '\U{205F}'
    || c == '\U{3000}' || c == '\U{FEFF}'
  }

  predicate NoSpace(s: string) {
    forall i :: 0 <= i < |s| ==> !IsSpace(s[i])
  }

  predicate AllSpace(s: string) {
    forall i :: 0 <= i < |s| ==> IsSpace(s[i])
  }

  predicate IsAsciiUpper(c: char) { 'A' <= c <= 'Z' }

  predicate IsAsciiLower(c: char) { 'a' <= c <= 'z' }

  predicate IsAsciiLetter(c: char) { IsAsciiUpper(c) || IsAsciiLower(c) }

  // ---------------------------------------------------------------------------
  // Trimming

  /** Drops the leading whitespace run. */
  function TrimStart(s: string): (r: string)
    ensures |r| <= |s|
    ensures r != [] ==> !IsSpace(r[0])
  {
    if s != [] && IsSpace(s[0]) then TrimStart(s[1..]) else s
  }

  /** Drops the trailing whitespace run. */
  function TrimEnd(s: string): (r: string)
    ensures |r| <= |s|
    ensures r != [] ==> !IsSpace(r[|r| - 1])
  {
    if s != [] && IsSpace(s[|s| - 1]) then TrimEnd(s[..|s| - 1]) else s
  }

  /** `TrimStart` keeps a suffix, and what it drops is whitespace. */
  lemma {:induction false} TrimStartShape(s: string)
    ensures TrimStart(s) == s[|s| - |TrimStart(s)|..]
    ensures AllSpace(s[..|s| - |TrimStart(s)|])
    decreases |s|
  {
    if s != [] && IsSpace(s[0]) {
      TrimStartShape(s[1..]);
      assert s[..|s| - |TrimStart(s)|] == [s[0]] + s[1..][..|s| - 1 - |TrimStart(s[1..])|];
    }
  }

  /** `TrimEnd` keeps a prefix, and what it drops is whitespace. */
  lemma {:induction false} TrimEndShape(s: string)
    ensures TrimEnd(s) == s[..|TrimEnd(s)|]
    ensures AllSpace(s[|TrimEnd(s)|..])
    decreases |s|
  {
    if s != [] && IsSpace(s[|s| - 1]) {
      var p := s[..|s| - 1];
      TrimEndShape(p);
      assert s[|TrimEnd(s)|..] == p[|TrimEnd(p)|..] + [s[|s| - 1]];
    }
  }

  /** `String.prototype.trim`: the longest infix without whitespace at either end (see `TrimInfix`). */
  function Trim(s: string): (r: string)
    ensures |r| <= |s|
    ensures r != [] ==> !IsSpace(r[0]) && !IsSpace(r[|r| - 1])
  {
    TrimEndShape(TrimStart(s));
    TrimEnd(TrimStart(s))
  }

  /** The trim is the infix that starts after the leading whitespace run, with only whitespace around it. */
  lemma TrimInfix(s: string)
    ensures var i := |s| - |TrimStart(s)|;
            && i + |Trim(s)| <= |s| && Trim(s) == s[i..i + |Trim(s)|]
            && AllSpace(s[..i]) && AllSpace(s[i + |Trim(s)|..])
  {
    TrimStartShape(s);
    TrimEndShape(TrimStart(s));
    SpaceAround(s, TrimStart(s), Trim(s));
  }

  /** A prefix of a suffix, with whitespace cut from both ends, is an infix with whitespace around it. */
  lemma SpaceAround(s: string, t: string, r: string)
    requires |t| <= |s| && t == s[|s| - |t|..] && AllSpace(s[..|s| - |t|])
    requires |r| <= |t| && r == t[..|r|] && AllSpace(t[|r|..])
    ensures var i := |s| - |t|;
            && i + |r| <= |s| && r == s[i..i + |r|]
            && AllSpace(s[..i]) && AllSpace(s[i + |r|..])
  {
    var i := |s| - |t|;
    assert s[i + |r|..] == t[|r|..];
  }

  /** A string that is all whitespace trims to the empty string, and only such a string does. */
  lemma TrimEmptyIff(s: string)
    ensures Trim(s) == [] <==> AllSpace(s)
  {
    TrimInfix(s);
    var i := |s| - |TrimStart(s)|;
    if Trim(s) == [] {
      assert s == s[..i] + s[i..];
    } else {
      assert !IsSpace(s[i]);
    }
  }

  /** A string with no whitespace at either end is its own trim. */
  lemma TrimNoOp(s: string)
    requires s != [] ==> !IsSpace(s[0]) && !IsSpace(s[|s| - 1])
    ensures Trim(s) == s
  {
  }

  // ---------------------------------------------------------------------------
  // ASCII case mapping

  function LowerChar(c: char): (d: char)
    ensures !IsAsciiUpper(d)
    ensures IsAsciiUpper(c) ==> d as int == c as int + 32
    ensures !IsAsciiUpper(c) ==> d == c
  {
    if IsAsciiUpper(c) then (c as int + 32) as char else c
  }

  function UpperChar(c: char): (d: char)
    ensures !IsAsciiLower(d)
    ensures IsAsciiLower(c) ==> d as int == c as int - 32
    ensures !IsAsciiLower(c) ==> d == c
  {
    if IsAsciiLower(c) then (c as int - 32) as char else c
  }

  /** `toLowerCase`, on the ASCII range. */
  function Lower(s: string): string {
    seq(|s|, i requires 0 <= i < |s| => LowerChar(s[i]))
  }

  /** `toUpperCase`, on the ASCII range. */
  function Upper(s: string): string {
    seq(|s|, i requires 0 <= i < |s| => UpperChar(s[i]))
  }

  lemma LowerIdempotent(s: string)
    ensures Lower(Lower(s)) == Lower(s)
  {
  }

  /** Lowercasing forgets an earlier uppercasing. */
  lemma LowerOfUpper(s: string)
    ensures Lower(Upper(s)) == Lower(s)
  {
  }

  lemma LowerKeepsSpaces(s: string)
    ensures forall i :: 0 <= i < |s| ==> (IsSpace(Lower(s)[i]) <==> IsSpace(s[i]))
  {
  }

  lemma {:induction false} TrimStartLower(s: string)
    ensures TrimStart(Lower(s)) == Lower(TrimStart(s))
    decreases |s|
  {
    if s != [] && IsSpace(s[0]) {
      assert IsSpace(Lower(s)[0]);
      assert Lower(s)[1..] == Lower(s[1..]);
      TrimStartLower(s[1..]);
    } else {
      assert Lower(s) != [] ==> !IsSpace(Lower(s)[0]);
    }
  }

  lemma {:induction false} TrimEndLower(s: string)
    ensures TrimEnd(Lower(s)) == Lower(TrimEnd(s))
    decreases |s|
  {
    if s != [] && IsSpace(s[|s| - 1]) {
      assert IsSpace(Lower(s)[|s| - 1]);
      assert Lower(s)[..|s| - 1] == Lower(s[..|s| - 1]);
      TrimEndLower(s[..|s| - 1]);
    } else {
      assert Lower(s) != [] ==> !IsSpace(Lower(s)[|s| - 1]);
    }
  }

  /** Lowering and trimming commute, since lowering never touches whitespace. */
  lemma TrimLower(s: string)
    ensures Trim(Lower(s)) == Lower(Trim(s))
  {
    TrimStartLower(s);
    TrimEndLower(TrimStart(s));
  }

  // ---------------------------------------------------------------------------
  // Substrings and splitting on a literal separator

  predicate StartsWith(s: string, prefix: string) {
    |prefix| <= |s| && s[..|prefix|] == prefix
  }

  predicate EndsWith(s: string, suffix: string) {
    |suffix| <= |s| && s[|s| - |suffix|..] == suffix
  }

  /** `sub` occurs in `s` starting at index `i`. */
  predicate OccursAt(s: string, sub: string, i: int) {
    0 <= i <= |s| - |sub| && s[i..i + |sub|] == sub
  }

  /** `s.includes(sub)`. */
  predicate Contains(s: string, sub: string) {
    exists i | 0 <= i <= |s| - |sub| :: OccursAt(s, sub, i)
  }

  /** `parts.join(sep)`. */
  function Join(parts: seq<string>, sep: string): string
    requires |parts| >= 1
  {
    if |parts| == 1 then parts[0] else parts[0] + sep + Join(parts[1..], sep)
  }

  /**
   * `s.split(sep)` for a non-empty literal separator: the string is scanned
   * from the left and every occurrence found is cut out, so occurrences never
   * overlap (`"a====b".split("===")` is `["a", "=b"]`).
   */
  function SplitOn(s: string, sep: string): (parts: seq<string>)
    requires sep != []
    ensures |parts| >= 1
    decreases |s|
  {
    if StartsWith(s, sep) then [[]] + SplitOn(s[|sep|..], sep)
    else if s == [] then [[]]
    else
      var rest := SplitOn(s[1..], sep);
      [[s[0]] + rest[0]] + rest[1..]
  }

  /** Joining the pieces back with the separator gives the original string. */
  lemma {:induction false} JoinSplitOn(s: string, sep: string)
    requires sep != []
    ensures Join(SplitOn(s, sep), sep) == s
    decreases |s|
  {
    if StartsWith(s, sep) {
      JoinSplitOn(s[|sep|..], sep);
      JoinEmptyHead(SplitOn(s[|sep|..], sep), sep);
      assert s == sep + s[|sep|..];
    } else if s != [] {
      JoinSplitOn(s[1..], sep);
      JoinConsHead([s[0]], SplitOn(s[1..], sep), sep);
      assert s == [s[0]] + s[1..];
    }
  }

  /** An empty first piece contributes just the separator. */
  lemma JoinEmptyHead(tail: seq<string>, sep: string)
    requires |tail| >= 1
    ensures Join([[]] + tail, sep) == sep + Join(tail, sep)
  {
    assert ([[]] + tail)[1..] == tail;
  }

  /** Prefixing the first piece prefixes the joined string. */
  lemma JoinConsHead(p: string, parts: seq<string>, sep: string)
    requires |parts| >= 1
    ensures Join([p + parts[0]] + parts[1..], sep) == p + Join(parts, sep)
  {
    assert ([p + parts[0]] + parts[1..])[1..] == parts[1..];
  }

  /** No piece produced by the split contains the separator. */
  lemma {:induction false} SplitOnPiecesFree(s: string, sep: string)
    requires sep != []
    ensures forall k :: 0 <= k < |SplitOn(s, sep)| ==> !Contains(SplitOn(s, sep)[k], sep)
    decreases |s|
  {
    if StartsWith(s, sep) {
      SplitOnPiecesFree(s[|sep|..], sep);
      var parts := SplitOn(s, sep);
      forall k | 0 <= k < |parts| ensures !Contains(parts[k], sep) {
        if k > 0 { assert parts[k] == SplitOn(s[|sep|..], sep)[k - 1]; }
      }
    } else if s != [] {
      var rest := SplitOn(s[1..], sep);
      SplitOnPiecesFree(s[1..], sep);
      FirstPieceIsPrefix(s[1..], sep);
      ConsPieceFree(s, rest[0], sep);
      var parts := SplitOn(s, sep);
      forall k | 0 <= k < |parts| ensures !Contains(parts[k], sep) {
        if k > 0 { assert parts[k] == rest[k]; }
      }
    }
  }

  /** A piece free of the separator, extended in front by a first character that does not start the separator, stays free of it. */
  lemma ConsPieceFree(s: string, t: string, sep: string)
    requires sep != [] && s != [] && !StartsWith(s, sep)
    requires StartsWith(s[1..], t) && !Contains(t, sep)
    ensures !Contains([s[0]] + t, sep)
  {
    var first := [s[0]] + t;
    forall i | 0 <= i <= |first| - |sep| ensures !OccursAt(first, sep, i) {
      if i == 0 {
        assert first[..|sep|] == s[..|sep|];
      } else {
        assert first[i..i + |sep|] == t[i - 1..i - 1 + |sep|];
        assert !OccursAt(t, sep, i - 1);
      }
    }
  }

  /** The first piece of a split is a prefix of the string. */
  lemma FirstPieceIsPrefix(s: string, sep: string)
    requires sep != []
    ensures StartsWith(s, SplitOn(s, sep)[0])
  {
    JoinSplitOn(s, sep);
    var parts := SplitOn(s, sep);
    if |parts| > 1 {
      assert s == parts[0] + (sep + Join(parts[1..], sep));
    }
  }

  /** A split with a single piece returns the string itself. */
  lemma SinglePiece(s: string, sep: string)
    requires sep != [] && |SplitOn(s, sep)| == 1
    ensures SplitOn(s, sep)[0] == s
  {
    JoinSplitOn(s, sep);
  }

  /** The last piece of a split; the same as the whole string when there is one piece. */
  function LastOf(s: string, sep: string): string
    requires sep != []
  {
    SplitOn(s, sep)[|SplitOn(s, sep)| - 1]
  }

  /**
   * The last piece of a split is a suffix free of the separator, and when
   * there are several pieces, what precedes it ends with the separator.
   */
  predicate LastPieceShape(s: string, sep: string)
    requires sep != []
  {
    var last := LastOf(s, sep);
    && EndsWith(s, last) && !Contains(last, sep)
    && (|SplitOn(s, sep)| > 1 ==> EndsWith(s[..|s| - |last|], sep))
  }

  lemma {:induction false} LastPiece(s: string, sep: string)
    requires sep != []
    ensures LastPieceShape(s, sep)
    decreases |s|, 1
  {
    SplitOnPiecesFree(s, sep);
    if StartsWith(s, sep) {
      LastPieceAfterSep(s, sep);
    } else if s != [] {
      LastPieceAfterChar(s, sep);
    }
  }

  lemma {:induction false} LastPieceAfterSep(s: string, sep: string)
    requires sep != [] && StartsWith(s, sep)
    ensures LastPieceShape(s, sep)
    decreases |s|, 0
  {
    var rest := s[|sep|..];
    LastPiece(rest, sep);
    LastOfAfterSep(s, sep);
    LastOfSingle(rest, sep);
    ShapeAfterSep(s, sep, rest, LastOf(rest, sep), |SplitOn(rest, sep)| > 1);
  }

  /** A leading separator contributes an empty first piece and leaves the last piece alone. */
  lemma LastOfAfterSep(s: string, sep: string)
    requires sep != [] && StartsWith(s, sep)
    ensures |SplitOn(s, sep)| > 1 && LastOf(s, sep) == LastOf(s[|sep|..], sep)
  {
    var ps := SplitOn(s[|sep|..], sep);
    assert SplitOn(s, sep) == [[]] + ps;
    LastOfCons([], ps);
  }

  lemma LastOfCons<T>(x: T, ps: seq<T>)
    requires ps != []
    ensures |[x] + ps| > 1 && ([x] + ps)[|[x] + ps| - 1] == ps[|ps| - 1]
  {
  }

  lemma LastOfSingle(s: string, sep: string)
    requires sep != []
    ensures |SplitOn(s, sep)| == 1 ==> LastOf(s, sep) == s
  {
    if |SplitOn(s, sep)| == 1 {
      SinglePiece(s, sep);
    }
  }

  /** A last piece of what follows a leading separator sits after a separator in the whole string. */
  lemma ShapeAfterSep(s: string, sep: string, rest: string, last: string, many: bool)
    requires StartsWith(s, sep) && rest == s[|sep|..] && EndsWith(rest, last)
    requires many ==> EndsWith(rest[..|rest| - |last|], sep)
    requires !many ==> last == rest
    ensures EndsWith(s, last) && EndsWith(s[..|s| - |last|], sep)
  {
    assert s == sep + rest;
    assert s[|s| - |last|..] == rest[|rest| - |last|..];
    assert s[..|s| - |last|] == sep + rest[..|rest| - |last|];
  }

  lemma {:induction false} LastPieceAfterChar(s: string, sep: string)
    requires sep != [] && !StartsWith(s, sep) && s != []
    ensures LastPieceShape(s, sep)
    decreases |s|, 0
  {
    LastOfAfterChar(s, sep);
    if |SplitOn(s[1..], sep)| > 1 {
      LastPiece(s[1..], sep);
      LastPieceFromTail(s, sep);
    } else {
      LastPieceWhole(s, sep);
    }
  }

  lemma LastPieceFromTail(s: string, sep: string)
    requires sep != [] && s != [] && LastPieceShape(s[1..], sep)
    requires |SplitOn(s[1..], sep)| > 1 && LastOf(s, sep) == LastOf(s[1..], sep)
    ensures LastPieceShape(s, sep)
  {
    ShapeAfterChar(s, s[1..], LastOf(s, sep), sep);
  }

  lemma LastPieceWhole(s: string, sep: string)
    requires sep != [] && SplitOn(s, sep) == [s]
    ensures LastPieceShape(s, sep)
  {
    SplitOnPiecesFree(s, sep);
    assert SplitOn(s, sep)[0] == s;
    assert s[|s| - |s|..] == s;
  }

  /** A leading character that starts no separator joins the first piece and leaves the last one alone. */
  lemma LastOfAfterChar(s: string, sep: string)
    requires sep != [] && !StartsWith(s, sep) && s != []
    ensures |SplitOn(s, sep)| == |SplitOn(s[1..], sep)|
    ensures |SplitOn(s[1..], sep)| > 1 ==> LastOf(s, sep) == LastOf(s[1..], sep)
    ensures |SplitOn(s[1..], sep)| == 1 ==> LastOf(s, sep) == s && SplitOn(s, sep) == [s]
  {
    var rest := SplitOn(s[1..], sep);
    var head := [s[0]] + rest[0];
    assert SplitOn(s, sep) == [head] + rest[1..];
    ReplaceHead(head, rest);
    if |rest| == 1 {
      SinglePiece(s[1..], sep);
      assert head == s;
    }
  }

  /** Replacing the first element keeps the length and, when there is more than one, the last element. */
  lemma ReplaceHead<T>(x: T, ps: seq<T>)
    requires ps != []
    ensures |[x] + ps[1..]| == |ps|
    ensures |ps| > 1 ==> ([x] + ps[1..])[|ps| - 1] == ps[|ps| - 1]
    ensures |ps| == 1 ==> [x] + ps[1..] == [x]
  {
  }

  /** A last piece that follows a separator in the tail does so in the whole string too. */
  lemma ShapeAfterChar(s: string, t: string, last: string, sep: string)
    requires s != [] && t == s[1..] && EndsWith(t, last) && EndsWith(t[..|t| - |last|], sep)
    ensures EndsWith(s, last) && EndsWith(s[..|s| - |last|], sep)
  {
    assert s == [s[0]] + t;
    EndsWithCons(s[0], t, last);
    assert s[..|s| - |last|] == [s[0]] + t[..|t| - |last|];
    EndsWithCons(s[0], t[..|t| - |last|], sep);
  }


  /** A suffix stays a suffix when a character is put in front. */
  lemma EndsWithCons(c: char, u: string, suffix: string)
    requires EndsWith(u, suffix)
    ensures EndsWith([c] + u, suffix)
  {
    assert ([c] + u)[|u| + 1 - |suffix|..] == u[|u| - |suffix|..];
  }

  /** An infix of a string that does not contain `sub` does not contain it either. */
  lemma InfixNotContains(s: string, sub: string, i: nat, j: nat)
    requires !Contains(s, sub) && i <= j <= |s|
    ensures !Contains(s[i..j], sub)
  {
    if Contains(s[i..j], sub) {
      var t := s[i..j];
      var k :| 0 <= k <= |t| - |sub| && OccursAt(t, sub, k);
      assert t[k..k + |sub|] == sub;
      forall m | 0 <= m < |sub| ensures s[i + k + m] == sub[m] {
        assert t[k + m] == s[i + k + m];
      }
      assert s[i + k..i + k + |sub|] == sub;
      assert OccursAt(s, sub, i + k);
    }
  }

  // ---------------------------------------------------------------------------
  // Whitespace runs

  /** `s.split(/\s+/)`: cuts at every maximal whitespace run. */
  function SplitWhitespace(s: string): (words: seq<string>)
    ensures |words| >= 1
    decreases |s|
  {
    if s == [] then [[]]
    else if IsSpace(s[0]) then [[]] + SplitWhitespace(TrimStart(s))
    else
      var rest := SplitWhitespace(s[1..]);
      [[s[0]] + rest[0]] + rest[1..]
  }

  /** `s.replace(/\s+/g, ' ')`: every maximal whitespace run becomes one space. */
  function CollapseSpaces(s: string): (r: string)
    ensures |r| <= |s|
    ensures r != [] ==> s != [] && (IsSpace(r[0]) <==> IsSpace(s[0]))
    ensures r == [] <==> s == []
    ensures forall i :: 0 <= i < |r| && IsSpace(r[i]) ==> r[i] == ' '
    ensures forall i, j :: 0 <= i && j == i + 1 && j < |r| ==> !(r[i] == ' ' && r[j] == ' ')
    decreases |s|
  {
    if s == [] then []
    else if IsSpace(s[0]) then [' '] + CollapseSpaces(TrimStart(s))
    else [s[0]] + CollapseSpaces(s[1..])
  }

  /** Collapsing whitespace is the same as splitting at whitespace runs and joining with one space. */
  lemma {:induction false} CollapseIsSplitJoin(s: string)
    ensures CollapseSpaces(s) == Join(SplitWhitespace(s), " ")
    decreases |s|
  {
    if s != [] {
      if IsSpace(s[0]) {
        CollapseIsSplitJoin(TrimStart(s));
      } else {
        var rest := SplitWhitespace(s[1..]);
        CollapseIsSplitJoin(s[1..]);
        if |rest| > 1 {
          assert Join(rest, " ") == rest[0] + " " + Join(rest[1..], " ");
          assert Join(SplitWhitespace(s), " ") == ([s[0]] + rest[0]) + " " + Join(rest[1..], " ");
        }
      }
    }
  }

  /** A string without leading or doubled whitespace, whose only whitespace is ' ', is unchanged by collapsing. */
  lemma {:induction false} CollapseNoOp(s: string)
    requires forall i :: 0 <= i < |s| && IsSpace(s[i]) ==> s[i] == ' '
    requires forall i, j :: 0 <= i && j == i + 1 && j < |s| ==> !(s[i] == ' ' && s[j] == ' ')
    ensures CollapseSpaces(s) == s
    decreases |s|
  {
    if s != [] {
      if IsSpace(s[0]) {
        assert TrimStart(s) == s[1..] by {
          assert s[1..] == [] || !IsSpace(s[1]);
        }
      }
      CollapseNoOp(s[1..]);
    }
  }

  /** Words joined by single spaces split back into the same words. */
  lemma {:induction false} SplitJoinWords(ws: seq<string>)
    requires |ws| >= 1
    requires forall k :: 0 <= k < |ws| ==> ws[k] != [] && NoSpace(ws[k])
    ensures SplitWhitespace(Join(ws, " ")) == ws
    decreases |ws|
  {
    if |ws| == 1 {
      SplitWordPrefix(ws[0], []);
      assert ws[0] + [] == ws[0];
    } else {
      var tail := Join(ws[1..], " ");
      SplitJoinWords(ws[1..]);
      JoinStartsWith(ws[1..]);
      var spaced := " " + tail;
      assert spaced[1..] == tail;
      assert TrimStart(spaced) == tail;
      assert SplitWhitespace(spaced) == [[]] + SplitWhitespace(tail);
      SplitWordPrefix(ws[0], spaced);
      assert Join(ws, " ") == ws[0] + spaced;
      assert ws[0] + [] == ws[0];
      assert ws == [ws[0]] + ws[1..];
    }
  }

  lemma JoinStartsWith(ws: seq<string>)
    requires |ws| >= 1 && ws[0] != []
    ensures Join(ws, " ") != [] && Join(ws, " ")[0] == ws[0][0]
  {
  }

  /** A leading run without whitespace belongs to the first word. */
  lemma {:induction false} SplitWordPrefix(w: string, t: string)
    requires NoSpace(w)
    ensures SplitWhitespace(w + t) == [w + SplitWhitespace(t)[0]] + SplitWhitespace(t)[1..]
    decreases |w|
  {
    if w != [] {
      var x := SplitWhitespace(t);
      assert (w + t)[0] == w[0];
      assert (w + t)[1..] == w[1..] + t;
      SplitWordPrefix(w[1..], t);
      var rest := SplitWhitespace(w[1..] + t);
      assert rest[0] == w[1..] + x[0] && rest[1..] == x[1..];
      assert [w[0]] + rest[0] == w + x[0];
    } else {
      var x := SplitWhitespace(t);
      assert w + t == t;
      assert [] + x[0] == x[0];
      assert x == [x[0]] + x[1..];
    }
  }

  // ---------------------------------------------------------------------------
  // Array slices

  /** The end index `slice(0, n)` uses on a sequence of length `len`: a negative `n` counts from the end. */
  function SliceEnd(len: nat, n: int): (e: nat)
    ensures e <= len
    ensures n >= 0 ==> e == if n < len then n else len
    ensures n < 0 ==> e == if len + n > 0 then len + n else 0
  {
    if n >= 0 then (if n < len then n else len)
    else if len + n > 0 then len + n else 0
  }

  /** `s.slice(0, n)`. */
  function Take<T>(s: seq<T>, n: int): (r: seq<T>)
    ensures r <= s
    ensures n >= 0 ==> |r| == if n < |s| then n else |s|
    ensures n < 0 ==> |r| == if |s| + n > 0 then |s| + n else 0
  {
    s[..SliceEnd(|s|, n)]
  }

  // ---------------------------------------------------------------------------
  // Decimal rendering of integers (template-literal interpolation)

  function DigitChar(d: nat): (c: char)
    requires d < 10
    ensures '0' <= c <= '9' && c as int - '0' as int == d
  {
    ('0' as int + d) as char
  }

  function NatToString(n: nat): (s: string)
    ensures s != []
    ensures forall i :: 0 <= i < |s| ==> '0' <= s[i] <= '9'
    ensures |s| > 1 ==> s[0] != '0'
  {
    if n < 10 then [DigitChar(n)] else NatToString(n / 10) + [DigitChar(n % 10)]
  }

  function IntToString(n: int): (s: string)
    ensures s != []
  {
    if n < 0 then "-" + NatToString(-n) else NatToString(n)
  }

  /** Reads digits back as a number. */
  function ParseDigits(s: string): nat
    requires forall i :: 0 <= i < |s| ==> '0' <= s[i] <= '9'
  {
    if s == [] then 0 else 10 * ParseDigits(s[..|s| - 1]) + (s[|s| - 1] as int - '0' as int)
  }

  /** The decimal rendering of a natural number reads back as that number. */
  lemma {:induction false} ParseNatToString(n: nat)
    ensures ParseDigits(NatToString(n)) == n
  {
    if n >= 10 {
      var s := NatToString(n);
      assert s[..|s| - 1] == NatToString(n / 10);
      ParseNatToString(n / 10);
    }
  }
  /** A piece free of a one-character separator splits to itself. */
  lemma {:induction false} SplitFreePiece(p: string, c: char)
    requires forall i :: 0 <= i < |p| ==> p[i] != c
    ensures SplitOn(p, [c]) == [p]
    decreases |p|
  {
    if p != [] {
      assert !StartsWith(p, [c]) by { assert p[..1] == [p[0]]; }
      SplitFreePiece(p[1..], c);
      assert [p[0]] + p[1..] == p;
    }
  }

  /** A piece free of a one-character separator, then the separator, splits off as the first piece. */
  lemma {:induction false} SplitFreeThen(p: string, t: string, c: char)
    requires forall i :: 0 <= i < |p| ==> p[i] != c
    ensures SplitOn(p + [c] + t, [c]) == [p] + SplitOn(t, [c])
    decreases |p|
  {
    var s := p + [c] + t;
    if p == [] {
      assert s == [c] + t;
      assert s[..1] == [c];
      assert s[1..] == t;
    } else {
      assert !StartsWith(s, [c]) by { assert s[..1] == [p[0]]; }
      assert s[1..] == p[1..] + [c] + t;
      SplitFreeThen(p[1..], t, c);
      assert [p[0]] + p[1..] == p;
    }
  }

  /** Splitting at a one-character separator undoes joining pieces that do not contain it. */
  lemma {:induction false} SplitJoinChar(parts: seq<string>, c: char)
    requires |parts| >= 1
    requires forall k, i :: 0 <= k < |parts| && 0 <= i < |parts[k]| ==> parts[k][i] != c
    ensures SplitOn(Join(parts, [c]), [c]) == parts
    decreases |parts|
  {
    if |parts| == 1 {
      SplitFreePiece(parts[0], c);
    } else {
      SplitJoinChar(parts[1..], c);
      SplitFreeThen(parts[0], Join(parts[1..], [c]), c);
      assert [parts[0]] + parts[1..] == parts;
    }
  }

  /** A prefix that never holds the first character of `w` cannot create an occurrence of `w`. */
  lemma PrefixKeepsAbsent(p: string, x: string, w: string)
    requires w != [] && !Contains(x, w)
    requires forall i :: 0 <= i < |p| ==> p[i] != w[0]
    ensures !Contains(p + x, w)
  {
    var s := p + x;
    forall i | 0 <= i <= |s| - |w|
      ensures !OccursAt(s, w, i)
    {
      if i < |p| {
        assert s[i..i + |w|][0] == p[i];
      } else {
        assert s[i..i + |w|] == x[i - |p|..i - |p| + |w|];
        assert !OccursAt(x, w, i - |p|);
      }
    }
  }

  /** A label's following space is trimmed away from a field that is its own trim. */
  lemma TrimAfterSpace(x: string)
    requires x != [] && Trim(x) == x
    ensures Trim(" " + x) == x
  {
    assert !IsSpace(x[0]);
    assert (" " + x)[1..] == x;
    assert TrimStart(x) == x;
    assert TrimStart(" " + x) == x;
    TrimNoOp(x);
  }
}
