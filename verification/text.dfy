/**
 * The string operations the session logic relies on: ECMAScript's
 * `String.prototype.trim`, substring search (what `RegExp.prototype.test`
 * does for a pattern made of literal alternatives), and the global
 * replacement that strips Markdown code fences from the analysis reply.
 */
module Text {

  /** The characters `trim` removes: ECMAScript WhiteSpace and LineTerminator. */
  predicate IsWhitespace(c: char) {
    || c == ' ' || c == '\t' || c == '\n' || c == '\r'
    || c == '\U{000B}' || c == '\U{000C}' || c == '\U{00A0}' || c == '\U{FEFF}'
    || c == '\U{1680}' || ('\U{2000}' <= c <= '\U{200A}')
    || c == '\U{2028}' || c == '\U{2029}' || c == '\U{202F}' || c == '\U{205F}'
    || c == '\U{3000}'
  }

  /** Every character of `s[lo..hi]` is whitespace. */
  predicate WhitespaceBetween(s: string, lo: int, hi: int)
    requires 0 <= lo <= hi <= |s|
  {
    forall k :: lo <= k < hi ==> IsWhitespace(s[k])
  }

  predicate AllWhitespace(s: string) {
    WhitespaceBetween(s, 0, |s|)
  }

  /** Length of the run of whitespace at the start of `s`. */
  function LeadingWhitespace(s: string): (k: nat)
    ensures k <= |s| && WhitespaceBetween(s, 0, k)
    ensures k < |s| ==> !IsWhitespace(s[k])
  {
    if s == [] || !IsWhitespace(s[0]) then 0
    else LeadingWhitespace(s[1..]) + 1
  }

  /** Length of the run of whitespace at the end of `s`. */
  function TrailingWhitespace(s: string): (k: nat)
    ensures k <= |s| && WhitespaceBetween(s, |s| - k, |s|)
    ensures k < |s| ==> !IsWhitespace(s[|s| - k - 1])
  {
    if s == [] || !IsWhitespace(s[|s| - 1]) then 0
    else TrailingWhitespace(s[..|s| - 1]) + 1
  }

  /** `r` is `s[i..j]` with only whitespace cut away on either side. */
  ghost predicate TrimmedAt(s: string, r: string, i: int, j: int) {
    0 <= i <= j <= |s| && r == s[i..j] && WhitespaceBetween(s, 0, i) && WhitespaceBetween(s, j, |s|)
  }

  /** `String.prototype.trim`. */
  function Trim(s: string): (r: string)
    ensures exists i, j :: TrimmedAt(s, r, i, j)
    ensures r != [] ==> !IsWhitespace(r[0]) && !IsWhitespace(r[|r| - 1])
  {
    var a := LeadingWhitespace(s);
    var t := s[a..];
    var b := TrailingWhitespace(t);
    var r := t[..|t| - b];
    assert TrimmedAt(s, r, a, a + |t| - b);
    r
  }

  /** A string is blank after trimming exactly when it holds only whitespace. */
  lemma TrimEmptyIff(s: string)
    ensures Trim(s) == [] <==> AllWhitespace(s)
  {
    var r := Trim(s);
    var i, j :| TrimmedAt(s, r, i, j);
    if r == [] {
      assert i == j;
    } else {
      assert r[0] == s[i] && !IsWhitespace(s[i]);
    }
  }

  /** Trimming twice is trimming once. */
  lemma TrimIdempotent(s: string)
    ensures Trim(Trim(s)) == Trim(s)
  {
    var r := Trim(s);
    var r2 := Trim(r);
    var i, j :| TrimmedAt(r, r2, i, j);
    if r != [] {
      assert !IsWhitespace(r[0]) && !IsWhitespace(r[|r| - 1]);
    }
  }

  /** `p` occurs in `s` starting at index `i`. */
  predicate OccursAt(s: string, p: string, i: int) {
    0 <= i && i + |p| <= |s| && s[i..i + |p|] == p
  }

  /** `s` contains `p` as a substring. */
  predicate Contains(s: string, p: string) {
    exists i | 0 <= i <= |s| - |p| :: OccursAt(s, p, i)
  }

  /** A substring of `b` is a substring of `a + b + c`. */
  lemma ContainsInContext(a: string, b: string, c: string, p: string)
    requires Contains(b, p)
    ensures Contains(a + b + c, p)
  {
    var i :| 0 <= i <= |b| - |p| && OccursAt(b, p, i);
    assert (a + b + c)[|a| + i..|a| + i + |p|] == b[i..i + |p|];
    assert OccursAt(a + b + c, p, |a| + i);
  }

  const Fence: string := "```"
  const JsonFence: string := "```json"

  /**
   * `text.replace(/```json|```/g, '')`: a left-to-right scan that at each
   * position removes "```json" if it starts there, else "```", else keeps
   * the character.
   */
  function StripFences(s: string): (r: string)
    ensures |r| <= |s|
    decreases |s|
  {
    if JsonFence <= s then StripFences(s[|JsonFence|..])
    else if Fence <= s then StripFences(s[|Fence|..])
    else if s == [] then []
    else [s[0]] + StripFences(s[1..])
  }

  /** The strip only deletes characters: it never adds one or repeats one. */
  lemma {:induction false} StripOnlyDeletes(s: string)
    ensures multiset(StripFences(s)) <= multiset(s)
    decreases |s|
  {
    if JsonFence <= s {
      StripOnlyDeletes(s[|JsonFence|..]);
      assert s == s[..|JsonFence|] + s[|JsonFence|..];
    } else if Fence <= s {
      StripOnlyDeletes(s[|Fence|..]);
      assert s == s[..|Fence|] + s[|Fence|..];
    } else if s != [] {
      StripOnlyDeletes(s[1..]);
      assert s == [s[0]] + s[1..];
    }
  }

  /** The text the reply is parsed from: fences stripped, then trimmed. */
  function CleanReply(s: string): (r: string)
    ensures !Contains(r, Fence)
  {
    var t := StripFences(s);
    NoFenceAfterStrip(s);
    TrimAddsNoSubstring(t, Fence);
    Trim(t)
  }

  /** Whatever `Trim(s)` contains, `s` contains. */
  lemma TrimAddsNoSubstring(s: string, p: string)
    ensures Contains(Trim(s), p) ==> Contains(s, p)
  {
    var r := Trim(s);
    var i, j :| TrimmedAt(s, r, i, j);
    if Contains(r, p) {
      ContainsInContext(s[..i], r, s[j..], p);
      assert s[..i] + r + s[j..] == s;
    }
  }

  /** A non-empty result of the strip starts with a backtick only if the input does. */
  lemma StripFirstBacktick(s: string)
    ensures StripFences(s) != [] && StripFences(s)[0] == '`' ==> s != [] && s[0] == '`'
  {
    if s != [] && !(JsonFence <= s) && !(Fence <= s) {
      assert StripFences(s)[0] == s[0];
    }
  }

  /** No result of the strip starts with two backticks unless its input does. */
  lemma StripNoDoubleBacktickStart(s: string)
    requires !(s != [] && s[0] == '`' && |s| >= 2 && s[1] == '`')
    ensures !(|StripFences(s)| >= 2 && StripFences(s)[0] == '`' && StripFences(s)[1] == '`')
  {
    var r := StripFences(s);
    StripFirstBacktick(s);
    if |r| >= 2 && r[0] == '`' {
      assert r == [s[0]] + StripFences(s[1..]);
      StripFirstBacktick(s[1..]);
    }
  }

  /** The strip leaves no "```" behind, even where removals join backticks. */
  lemma {:induction false} NoFenceAfterStrip(s: string)
    ensures !Contains(StripFences(s), Fence)
    decreases |s|
  {
    if JsonFence <= s {
      NoFenceAfterStrip(s[|JsonFence|..]);
    } else if Fence <= s {
      NoFenceAfterStrip(s[|Fence|..]);
    } else if s != [] {
      var rest := StripFences(s[1..]);
      var r := [s[0]] + rest;
      assert StripFences(s) == r;
      NoFenceAfterStrip(s[1..]);
      forall i | 0 <= i <= |r| - 3
        ensures !OccursAt(r, Fence, i)
      {
        if i == 0 {
          if s[0] == '`' {
            assert |s| >= 3 ==> s[..3] == [s[0], s[1], s[2]];
            StripNoDoubleBacktickStart(s[1..]);
          }
        } else {
          assert r[1..] == rest;
          assert rest[i - 1..i - 1 + 3] == r[i..i + 3];
          assert !OccursAt(rest, Fence, i - 1);
        }
      }
    }
  }

  /** Text without fences passes through the strip unchanged. */
  lemma {:induction false} StripWithoutFences(s: string)
    requires !Contains(s, Fence)
    ensures StripFences(s) == s
    decreases |s|
  {
    if s != [] {
      assert !OccursAt(s, Fence, 0);
      assert Fence <= JsonFence;
      forall i | 0 <= i <= |s[1..]| - 3
        ensures !OccursAt(s[1..], Fence, i)
      {
        assert s[i + 1..i + 1 + 3] == s[1..][i..i + 3];
        assert !OccursAt(s, Fence, i + 1);
      }
      StripWithoutFences(s[1..]);
    }
  }

  /** Stripping twice is stripping once. */
  lemma StripIdempotent(s: string)
    ensures StripFences(StripFences(s)) == StripFences(s)
  {
    NoFenceAfterStrip(s);
    StripWithoutFences(StripFences(s));
  }

  /** A reply wrapped as "```json" + body + "```" yields the body, if it has no backtick. */
  lemma {:induction false} StripClosingFence(t: string)
    requires forall k :: 0 <= k < |t| ==> t[k] != '`'
    ensures StripFences(t + Fence) == t
    decreases |t|
  {
    if t == [] {
      assert t + Fence == Fence;
      assert StripFences(Fence[|Fence|..]) == [];
    } else {
      assert (t + Fence)[0] == t[0];
      assert (t + Fence)[1..] == t[1..] + Fence;
      StripClosingFence(t[1..]);
    }
  }

  lemma UnwrapFencedReply(t: string)
    requires forall k :: 0 <= k < |t| ==> t[k] != '`'
    ensures CleanReply(JsonFence + t + Fence) == Trim(t)
  {
    var s := JsonFence + t + Fence;
    assert JsonFence <= s;
    assert s[|JsonFence|..] == t + Fence;
    StripClosingFence(t);
  }
}
