/** The .NET string operations the tool's output depends on: Trim,
    ToLower, String.Split on one separator, and the "field then terminator"
    concatenation both output providers build. */
module Text {

  /** char.IsWhiteSpace: the Unicode space, line and paragraph separators,
      the control characters U+0009..U+000D and U+0085. */
  predicate IsWhiteSpace(c: char)
  {
    var n := c as int;
    (0x09 <= n <= 0x0D) || n == 0x20 || n == 0x85 || n == 0xA0 || n == 0x1680
    || (0x2000 <= n <= 0x200A) || n == 0x2028 || n == 0x2029 || n == 0x202F
    || n == 0x205F || n == 0x3000
  }

  predicate AllWhiteSpace(s: string)
  {
    forall i :: 0 <= i < |s| ==> IsWhiteSpace(s[i])
  }

  /** String.TrimStart(): the suffix left after dropping leading white space. */
  function TrimStart(s: string): (r: string)
    ensures |r| <= |s| && r == s[|s| - |r|..]
    ensures AllWhiteSpace(s[..|s| - |r|])
    ensures r != [] ==> !IsWhiteSpace(r[0])
  {
    if s != [] && IsWhiteSpace(s[0]) then
      var r := TrimStart(s[1..]);
      assert s[1..][..|s| - 1 - |r|] == s[1..|s| - |r|];
      r
    else s
  }

  /** String.TrimEnd(): the prefix left after dropping trailing white space. */
  function TrimEnd(s: string): (r: string)
    ensures |r| <= |s| && r == s[..|r|]
    ensures AllWhiteSpace(s[|r|..])
    ensures r != [] ==> !IsWhiteSpace(r[|r| - 1])
  {
    if s != [] && IsWhiteSpace(s[|s| - 1]) then
      var r := TrimEnd(s[..|s| - 1]);
      assert s[..|s| - 1][|r|..] + [s[|s| - 1]] == s[|r|..];
      r
    else s
  }

  /** String.Trim(): white space removed from both ends. */
  function Trim(s: string): (r: string)
    ensures r != [] ==> !IsWhiteSpace(r[0]) && !IsWhiteSpace(r[|r| - 1])
  {
    TrimEnd(TrimStart(s))
  }

  /** Trim removes white space at both ends and nothing else: the result is
      the slice of the input that starts where TrimStart stops, with only
      white space around it. */
  lemma TrimIsSlice(s: string)
    ensures var i := |s| - |TrimStart(s)|;
            i + |Trim(s)| <= |s| && Trim(s) == s[i..i + |Trim(s)|]
            && AllWhiteSpace(s[..i]) && AllWhiteSpace(s[i + |Trim(s)|..])
  {
    SliceAround(s, TrimStart(s), Trim(s));
  }

  /** A prefix r of a suffix t of s, with only white space cut off on
      either side, is a slice of s with only white space around it. */
  lemma SliceAround(s: string, t: string, r: string)
    requires |t| <= |s| && t == s[|s| - |t|..] && AllWhiteSpace(s[..|s| - |t|])
    requires |r| <= |t| && r == t[..|r|] && AllWhiteSpace(t[|r|..])
    ensures var i := |s| - |t|; r == s[i..i + |r|] && AllWhiteSpace(s[i + |r|..])
  {
    var i := |s| - |t|;
    assert t[|r|..] == s[i + |r|..];
  }

  /** A string trims to nothing exactly when it is all white space. */
  lemma TrimEmpty(s: string)
    ensures Trim(s) == [] <==> AllWhiteSpace(s)
  {
    var t := TrimStart(s);
    var k := |s| - |t|;
    if t == [] {
      assert s[..k] == s;
    } else {
      assert t[0] == s[k] && !IsWhiteSpace(s[k]);
      assert t[0..] == t;
      assert !AllWhiteSpace(t[0..]);
    }
  }

  /** A string with no white space at either end is its own Trim. */
  lemma TrimTidy(s: string)
    requires s != [] ==> !IsWhiteSpace(s[0]) && !IsWhiteSpace(s[|s| - 1])
    ensures Trim(s) == s
  {
  }

  /** Leading white space does not change the trimmed result. */
  lemma {:induction false} TrimLeadingSpace(w: string, s: string)
    requires AllWhiteSpace(w)
    ensures TrimStart(w + s) == TrimStart(s)
    ensures Trim(w + s) == Trim(s)
  {
    if w != [] {
      assert (w + s)[1..] == w[1..] + s;
      TrimLeadingSpace(w[1..], s);
    } else {
      assert w + s == s;
    }
  }

  /** Trailing white space after a string that ends in a non-space is dropped. */
  lemma {:induction false} TrimEndTrailingSpace(s: string, w: string)
    requires AllWhiteSpace(w)
    requires s != [] ==> !IsWhiteSpace(s[|s| - 1])
    ensures TrimEnd(s + w) == s
  {
    if w != [] {
      var sw := s + w;
      assert sw[..|sw| - 1] == s + w[..|w| - 1];
      TrimEndTrailingSpace(s, w[..|w| - 1]);
    } else {
      assert s + w == s;
    }
  }

  // ---------------------------------------------------------------------

  /** char.ToLower on the ASCII letters; every other character is kept. */
  function ToLowerChar(c: char): char
  {
    if 'A' <= c <= 'Z' then (c as int + 32) as char else c
  }

  function ToLower(s: string): (r: string)
    ensures |r| == |s|
  {
    seq(|s|, i requires 0 <= i < |s| => ToLowerChar(s[i]))
  }

  lemma ToLowerIdempotent(s: string)
    ensures ToLower(ToLower(s)) == ToLower(s)
  {
  }

  // ---------------------------------------------------------------------

  /** Each field followed by one terminator character, all concatenated:
      what the loops `messageTmp += field + t` build. */
  function Terminated(fields: seq<string>, t: char): (line: string)
  {
    if fields == [] then [] else fields[0] + [t] + Terminated(fields[1..], t)
  }

  lemma {:induction false} TerminatedAppend(a: seq<string>, b: seq<string>, t: char)
    ensures Terminated(a + b, t) == Terminated(a, t) + Terminated(b, t)
  {
    if a != [] {
      assert (a + b)[1..] == a[1..] + b;
      TerminatedAppend(a[1..], b, t);
    } else {
      assert a + b == b;
    }
  }

  /** The fields joined by a separator, with nothing at either end. */
  function Join(fields: seq<string>, sep: char): string
  {
    if fields == [] then []
    else if |fields| == 1 then fields[0]
    else fields[0] + [sep] + Join(fields[1..], sep)
  }

  /** Terminating every field is joining them and terminating the last. */
  lemma {:induction false} TerminatedIsJoin(fields: seq<string>, t: char)
    requires fields != []
    ensures Terminated(fields, t) == Join(fields, t) + [t]
  {
    if |fields| > 1 {
      TerminatedIsJoin(fields[1..], t);
    } else {
      assert fields[1..] == [];
    }
  }

  /** Occurrences of a character. */
  function Count(s: string, c: char): nat
  {
    if s == [] then 0 else (if s[0] == c then 1 else 0) + Count(s[1..], c)
  }

  lemma {:induction false} CountAppend(a: string, b: string, c: char)
    ensures Count(a + b, c) == Count(a, c) + Count(b, c)
  {
    if a != [] {
      assert (a + b)[1..] == a[1..] + b;
      CountAppend(a[1..], b, c);
    } else {
      assert a + b == b;
    }
  }

  /** String.Split(sep): the pieces between separators, including an empty
      piece before a leading or after a trailing separator. */
  function Split(s: string, sep: char): (pieces: seq<string>)
    ensures |pieces| > 0
  {
    if s == [] then [[]]
    else if s[0] == sep then [[]] + Split(s[1..], sep)
    else
      var rest := Split(s[1..], sep);
      [[s[0]] + rest[0]] + rest[1..]
  }

  /** A piece without the separator, then the separator, splits off as one piece. */
  lemma {:induction false} SplitPiece(piece: string, sep: char, rest: string)
    requires forall i :: 0 <= i < |piece| ==> piece[i] != sep
    ensures Split(piece + [sep] + rest, sep) == [piece] + Split(rest, sep)
  {
    if piece != [] {
      assert (piece + [sep] + rest)[1..] == piece[1..] + [sep] + rest;
      SplitPiece(piece[1..], sep, rest);
      assert [piece[0]] + piece[1..] == piece;
    } else {
      assert piece + [sep] + rest == [sep] + rest;
    }
  }
}
