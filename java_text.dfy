/** The few java.lang.String operations the two activities rely on, restated
    over `seq<char>`: rendering of a null reference in a concatenation,
    upper-casing (ASCII only), `contains`, `trim` and the carriage-return
    rewrite done with `replaceAll`. */
module JavaText {

  /** A reference that may be null. */
  datatype Option<T> = None | Some(value: T)

  /** What `"" + x` produces for a String `x`: a null reference is rendered as
      the four letters "null". */
  function Render(s: Option<string>): string
  {
    match s
    case None => "null"
    case Some(t) => t
  }

  // ---------------------------------------------------------------------------
  // Upper-casing

  /** `Character.toUpperCase` restricted to ASCII: only 'a'..'z' change. */
  function UpperChar(c: char): (u: char)
    ensures 'a' <= c <= 'z' ==> 'A' <= u <= 'Z' && u as int == c as int - 32
    ensures !('a' <= c <= 'z') ==> u == c
  {
    if 'a' <= c <= 'z' then (c as int - 32) as char else c
  }

  /** `String.toUpperCase`, character by character. */
  function Upper(s: string): (r: string)
    ensures |r| == |s|
    ensures forall i :: 0 <= i < |s| ==> r[i] == UpperChar(s[i])
  {
    if s == [] then [] else [UpperChar(s[0])] + Upper(s[1..])
  }

  /** Two strings that agree up to ASCII case have the same upper-cased form. */
  lemma {:induction false} UpperIgnoresCase(s: string, t: string)
    requires |s| == |t|
    requires forall i :: 0 <= i < |s| ==> UpperChar(s[i]) == UpperChar(t[i])
    ensures Upper(s) == Upper(t)
  {
    var us, ut := Upper(s), Upper(t);
    assert |us| == |ut|;
    forall i | 0 <= i < |us| ensures us[i] == ut[i] {
      assert us[i] == UpperChar(s[i]);
    }
  }

  // ---------------------------------------------------------------------------
  // contains

  /** `t` occurs in `s` starting at index `i`. */
  predicate OccursAt(s: string, t: string, i: int)
  {
    0 <= i && i + |t| <= |s| && s[i..i + |t|] == t
  }

  /** `String.contains`. */
  predicate Contains(s: string, t: string)
  {
    exists i :: 0 <= i <= |s| - |t| && OccursAt(s, t, i)
  }

  /** Every character of a contained string is a character of the container. */
  lemma ContainedCharsOccur(s: string, t: string, k: int)
    requires Contains(s, t)
    requires 0 <= k < |t|
    ensures t[k] in s
  {
    var i :| 0 <= i <= |s| - |t| && OccursAt(s, t, i);
    assert s[i..i + |t|][k] == s[i + k];
  }

  // ---------------------------------------------------------------------------
  // trim

  /** `String.trim` removes every leading and trailing character whose code
      is at most that of the space character. */
  predicate IsTrimmed(c: char)
  {
    c <= ' '
  }

  function TrimLeading(s: string): (r: string)
    ensures |r| <= |s| && r == s[|s| - |r|..]
    ensures forall k :: 0 <= k < |s| - |r| ==> IsTrimmed(s[k])
    ensures r != [] ==> !IsTrimmed(r[0])
  {
    if s != [] && IsTrimmed(s[0]) then TrimLeading(s[1..]) else s
  }

  function TrimTrailing(s: string): (r: string)
    ensures |r| <= |s| && r == s[..|r|]
    ensures forall k :: |r| <= k < |s| ==> IsTrimmed(s[k])
    ensures r != [] ==> !IsTrimmed(r[|r| - 1])
  {
    if s != [] && IsTrimmed(s[|s| - 1]) then TrimTrailing(s[..|s| - 1]) else s
  }

  /** `r` is the slice of `s` starting at `a`, and only trimmed characters lie
      outside it. */
  predicate TrimmedSliceAt(s: string, r: string, a: int)
  {
    && 0 <= a <= |s| - |r|
    && r == s[a..a + |r|]
    && (forall k :: 0 <= k < a ==> IsTrimmed(s[k]))
    && (forall k :: a + |r| <= k < |s| ==> IsTrimmed(s[k]))
  }

  /** `String.trim`: the result is the slice of `s` left once the trimmed
      characters at both ends are gone. */
  function Trim(s: string): (r: string)
    ensures exists a :: TrimmedSliceAt(s, r, a)
    ensures r != [] ==> !IsTrimmed(r[0]) && !IsTrimmed(r[|r| - 1])
    ensures r == [] <==> forall k :: 0 <= k < |s| ==> IsTrimmed(s[k])
  {
    TrimBothEnds(s);
    TrimTrailing(TrimLeading(s))
  }

  /** Trimming the leading characters and then the trailing ones leaves a
      slice of `s` with only trimmed characters outside it. */
  lemma TrimBothEnds(s: string)
    ensures TrimmedSliceAt(s, TrimTrailing(TrimLeading(s)), |s| - |TrimLeading(s)|)
  {
    var left := TrimLeading(s);
    TrimmedOutside(s, left, TrimTrailing(left), |s| - |left|);
  }

  /** A prefix `r` of the suffix `left` of `s` that starts at `a` is the
      slice of `s` at `a`, and when only trimmed characters precede `left`
      and follow `r` within it, only trimmed characters lie outside `r`. */
  lemma TrimmedOutside(s: string, left: string, r: string, a: int)
    requires 0 <= a <= |s| && left == s[a..]
    requires |r| <= |left| && r == left[..|r|]
    requires forall k :: 0 <= k < a ==> IsTrimmed(s[k])
    requires forall k :: |r| <= k < |left| ==> IsTrimmed(left[k])
    ensures TrimmedSliceAt(s, r, a)
  {
    forall k | a + |r| <= k < |s|
      ensures IsTrimmed(s[k])
    {
      assert s[k] == left[k - a];
    }
  }

  // ---------------------------------------------------------------------------
  // replaceAll("\\r", "\n")

  /** `replaceAll("\\r", "\n")`: the regular expression `\r` matches a single
      carriage return, and each one becomes a line feed. */
  function LineFeeds(s: string): (r: string)
    ensures |r| == |s|
    ensures forall i :: 0 <= i < |s| ==> r[i] == if s[i] == '\r' then '\n' else s[i]
    ensures '\r' !in r
  {
    if s == [] then [] else [if s[0] == '\r' then '\n' else s[0]] + LineFeeds(s[1..])
  }
}
