/**
 * The JavaScript string built-ins the scaffolder relies on, over `seq<char>`:
 * `includes`, `indexOf`, `lastIndexOf`, `replace` with a string pattern (first
 * occurrence only) and the whitespace class used by `trim` and `\s`.
 */
module JsString {

  /** `n` occurs in `s` starting at index `i`. */
  predicate IsAt(s: string, n: string, i: int) {
    0 <= i && i + |n| <= |s| && s[i..i + |n|] == n
  }

  /** The first index at or after `from` where `n` occurs, or -1. */
  function IndexOfFrom(s: string, n: string, from: nat): (r: int)
    ensures r == -1 || (from <= r && IsAt(s, n, r))
    ensures forall i :: from <= i && (r == -1 || i < r) ==> !IsAt(s, n, i)
    decreases |s| - from
  {
    if from + |n| > |s| then -1
    else if s[from..from + |n|] == n then from
    else IndexOfFrom(s, n, from + 1)
  }

  /** `s.indexOf(n, position)`: the position is clamped to `0 .. |s|` first. */
  function IndexOf(s: string, n: string, position: int): (r: int)
    ensures r == -1 || (IsAt(s, n, r) && (position <= r || (n == [] && r == |s|)))
    ensures forall i :: 0 <= i && position <= i && (r == -1 || i < r) ==> !IsAt(s, n, i)
  {
    IndexOfFrom(s, n, if position < 0 then 0 else if position > |s| then |s| else position)
  }

  /** `s.includes(n)`. */
  function Includes(s: string, n: string): (b: bool)
    ensures b <==> exists i :: IsAt(s, n, i)
  {
    IndexOfFrom(s, n, 0) >= 0
  }

  /** The last index at or below `i` where `n` occurs, or -1. */
  function LastIndexOfAt(s: string, n: string, i: int): (r: int)
    ensures r == -1 || (0 <= r <= i && IsAt(s, n, r))
    ensures forall j :: r < j <= i ==> !IsAt(s, n, j)
    decreases i + 1
  {
    if i < 0 then -1
    else if IsAt(s, n, i) then i
    else LastIndexOfAt(s, n, i - 1)
  }

  /** `s.lastIndexOf(n)`: the greatest index where `n` occurs, or -1. */
  function LastIndexOf(s: string, n: string): (r: int)
    ensures r == -1 || IsAt(s, n, r)
    ensures forall j :: r < j ==> !IsAt(s, n, j)
  {
    LastIndexOfAt(s, n, |s| - |n|)
  }

  /**
   * The first occurrence of `pattern` replaced by `replacement` taken
   * literally, or `s` unchanged when there is none. This is `s.replace` for a
   * replacement without `$` (see `Replace`).
   */
  function ReplaceFirst(s: string, pattern: string, replacement: string): (r: string)
    ensures !Includes(s, pattern) ==> r == s
    ensures Includes(s, pattern) ==> |r| == |s| - |pattern| + |replacement|
  {
    var i := IndexOfFrom(s, pattern, 0);
    if i < 0 then s else s[..i] + replacement + s[i + |pattern|..]
  }

  /** Where `pattern` occurs, `replace` splices the replacement over its first occurrence. */
  lemma ReplaceFirstAt(s: string, pattern: string, replacement: string)
    requires Includes(s, pattern)
    ensures var i := IndexOfFrom(s, pattern, 0);
      && IsAt(s, pattern, i) && (forall j :: 0 <= j < i ==> !IsAt(s, pattern, j))
      && ReplaceFirst(s, pattern, replacement) == s[..i] + replacement + s[i + |pattern|..]
  {
    assert IndexOfFrom(s, pattern, 0) >= 0;
  }

  /**
   * GetSubstitution (ECMA-262, section 22.1.3.19.1) for a string pattern,
   * which has no capture groups: `$$` gives `$`, `$&` the matched text,
   * `` $` `` the text before the match and `$'` the text after it; every other
   * `$` (including `$1` and `$<`) stays as it is.
   */
  function Substitute(t: string, matched: string, before: string, after: string): (r: string)
    ensures '$' !in t ==> r == t
    decreases |t|
  {
    if t == [] then []
    else if t[0] == '$' && |t| >= 2 && t[1] == '$' then "$" + Substitute(t[2..], matched, before, after)
    else if t[0] == '$' && |t| >= 2 && t[1] == '&' then matched + Substitute(t[2..], matched, before, after)
    else if t[0] == '$' && |t| >= 2 && t[1] == '`' then before + Substitute(t[2..], matched, before, after)
    else if t[0] == '$' && |t| >= 2 && t[1] == '\'' then after + Substitute(t[2..], matched, before, after)
    else [t[0]] + Substitute(t[1..], matched, before, after)
  }

  /**
   * `s.replace(pattern, replacement)` with a string pattern: the first
   * occurrence is replaced by the replacement with its `$` patterns expanded,
   * and `s` is returned unchanged when there is none.
   */
  function Replace(s: string, pattern: string, replacement: string): (r: string)
    ensures !Includes(s, pattern) ==> r == s
    ensures '$' !in replacement ==> r == ReplaceFirst(s, pattern, replacement)
  {
    var i := IndexOfFrom(s, pattern, 0);
    if i < 0 then s
    else s[..i] + Substitute(replacement, pattern, s[..i], s[i + |pattern|..]) + s[i + |pattern|..]
  }

  /** Where `pattern` occurs, `replace` puts the expanded replacement over its first occurrence. */
  lemma ReplaceAt(s: string, pattern: string, replacement: string)
    requires Includes(s, pattern)
    ensures var i := IndexOfFrom(s, pattern, 0);
      && IsAt(s, pattern, i) && (forall j :: 0 <= j < i ==> !IsAt(s, pattern, j))
      && Replace(s, pattern, replacement) ==
           s[..i] + Substitute(replacement, pattern, s[..i], s[i + |pattern|..]) + s[i + |pattern|..]
  {
    var i := IndexOfFrom(s, pattern, 0);
    assert i >= 0;
    var before, after := s[..i], s[i + |pattern|..];
    assert Replace(s, pattern, replacement) == before + Substitute(replacement, pattern, before, after) + after;
  }

  /** `$&` stands for the matched text. */
  lemma ReplaceExpandsMatch()
    ensures Replace("ab", "a", "[$&]") == "[a]b"
  {
    assert IndexOfFrom("ab", "a", 0) == 0;
    var t := "[$&]";
    assert t[1..][2..] == "]";
    assert Substitute("]", "a", "", "b") == "]";
    assert Substitute(t[1..], "a", "", "b") == "a]";
  }

  /** `$$` stands for a single `$`. */
  lemma ReplaceExpandsDollar()
    ensures Replace("ab", "b", "$$") == "a$"
  {
    assert "ab"[0..1][0] == 'a';
    assert IndexOfFrom("ab", "b", 0) == 1;
    assert "$$"[2..] == [];
  }

  /** `$'` and `` $` `` stand for the text after and before the match. */
  lemma ReplaceExpandsContext()
    ensures Replace("abc", "b", "$'$`") == "acac"
  {
    assert "abc"[0..1][0] == 'a';
    assert IndexOfFrom("abc", "b", 0) == 1;
    var t := "$'$`";
    assert t[2..] == "$`" && t[2..][2..] == [];
    assert Substitute(t[2..], "b", "a", "c") == "a";
  }

  /** A string pattern has no groups, so `$1` stays as it is. */
  lemma ReplaceKeepsGroupReference()
    ensures Replace("ab", "a", "$1") == "$1b"
  {
    assert IndexOfFrom("ab", "a", 0) == 0;
    var t := "$1";
    assert t[1..] == "1" && t[1..][1..] == [];
  }

  /** The whitespace of `trim` and of the regular-expression class `\s`, ASCII part only. */
  predicate IsSpace(c: char) {
    c == ' ' || c == '\t' || c == '\n' || c == '\r' || c == '\U{B}' || c == '\U{C}'
  }

  /** An occurrence of `n` that does not straddle index `k` survives inserting `t` at `k`. */
  lemma OccurrenceSurvivesInsert(s: string, k: nat, t: string, n: string, i: nat)
    requires k <= |s| && IsAt(s, n, i)
    requires i + |n| <= k || k <= i
    ensures IsAt(s[..k] + t + s[k..], n, if k <= i then i + |t| else i)
  {
    var r := s[..k] + t + s[k..];
    var j := if k <= i then i + |t| else i;
    forall m | 0 <= m < |n|
      ensures r[j + m] == n[m]
    {
      assert s[i..i + |n|][m] == n[m];
    }
    assert r[j..j + |n|] == n;
  }

  /** A text inserted at index `k` occurs in the result at index `k`. */
  lemma InsertedOccurs(s: string, k: nat, t: string)
    requires k <= |s|
    ensures IsAt(s[..k] + t + s[k..], t, k)
  {
    var r := s[..k] + t + s[k..];
    assert r[k..k + |t|] == t;
  }

  /** A one-character needle occurs exactly where that character stands. */
  lemma IsAtChar(s: string, c: char, i: int)
    ensures IsAt(s, [c], i) <==> 0 <= i < |s| && s[i] == c
  {
    if 0 <= i < |s| {
      assert s[i..i + 1] == [s[i]];
    }
  }

  /** An occurrence inside an inserted text is an occurrence in the result. */
  lemma OccursInInserted(s: string, k: nat, t: string, n: string, o: nat)
    requires k <= |s| && IsAt(t, n, o)
    ensures IsAt(s[..k] + t + s[k..], n, k + o)
  {
    var r := s[..k] + t + s[k..];
    forall m | 0 <= m < |n|
      ensures r[k + o + m] == n[m]
    {
      assert t[o..o + |n|][m] == n[m];
    }
    assert r[k + o..k + o + |n|] == n;
  }

  /** An occurrence inside a replacement text is an occurrence in the result of the replacement. */
  lemma OccursInReplacement(s: string, i: nat, len: nat, t: string, n: string, o: nat)
    requires i + len <= |s| && IsAt(t, n, o)
    ensures IsAt(s[..i] + t + s[i + len..], n, i + o)
  {
    var r := s[..i] + t + s[i + len..];
    forall m | 0 <= m < |n|
      ensures r[i + o + m] == n[m]
    {
      assert t[o..o + |n|][m] == n[m];
    }
    assert r[i + o..i + o + |n|] == n;
  }

  /** Where `c` is not a character of `n`, no occurrence of `n` covers an index holding `c`. */
  lemma OccurrenceAvoidsChar(s: string, n: string, i: nat, k: nat, c: char)
    requires IsAt(s, n, i) && k < |s| && s[k] == c && c !in n
    ensures i + |n| <= k || k < i
  {
    assert s[i..i + |n|] == n;
  }

  /** The characters of an occurrence are those of the needle. */
  lemma CharOfOccurrence(s: string, n: string, q: int, m: int)
    requires IsAt(s, n, q) && 0 <= m < |n|
    ensures s[q + m] == n[m]
  {
    assert s[q..q + |n|][m] == s[q + m];
  }

  /** A position whose character differs from the first of `n` is skipped by the search. */
  lemma SkipMismatch(s: string, n: string, from: nat)
    requires from + |n| <= |s| && |n| > 0 && s[from] != n[0]
    ensures IndexOfFrom(s, n, from) == IndexOfFrom(s, n, from + 1)
  {
    assert s[from..from + |n|][0] == s[from];
  }

  /** An occurrence of `n` clear of the replaced span `[i, i + len)` survives the replacement, shifted if it lies after it. */
  lemma OccurrenceSurvivesReplace(s: string, i: nat, len: nat, t: string, n: string, q: nat)
    requires i + len <= |s| && IsAt(s, n, q)
    requires q + |n| <= i || i + len <= q
    ensures IsAt(s[..i] + t + s[i + len..], n, if q + |n| <= i then q else q + |t| - len)
  {
    var r := s[..i] + t + s[i + len..];
    var q' := if q + |n| <= i then q else q + |t| - len;
    forall m | 0 <= m < |n|
      ensures r[q' + m] == n[m]
    {
      assert s[q..q + |n|][m] == n[m];
    }
    assert r[q'..q' + |n|] == n;
  }
}
