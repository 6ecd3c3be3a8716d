/** String primitives the dashboard relies on: JavaScript's `toLowerCase`
    restricted to ASCII, `String.prototype.includes` as substring containment
    (with a character-by-character search proved equal to it), and
    `String.prototype.trim`. */
module Text {

  predicate IsUpper(c: char) {
    'A' <= c <= 'Z'
  }

  /** ASCII lower-casing of one character; every other character is kept. */
  function LowerChar(c: char): (r: char)
    ensures !IsUpper(r)
    ensures r != c ==> IsUpper(c) && r as int == c as int + 32
  {
    if IsUpper(c) then (c as int + 32) as char else c
  }

  /** `s.toLowerCase()` over ASCII: each character lowered in place. */
  function Lower(s: string): string {
    seq(|s|, i requires 0 <= i < |s| => LowerChar(s[i]))
  }

  predicate NoUpper(s: string) {
    forall i :: 0 <= i < |s| ==> !IsUpper(s[i])
  }

  /** Lowering leaves no capital behind and changes nothing else twice. */
  lemma LowerIdempotent(s: string)
    ensures NoUpper(Lower(s))
    ensures Lower(Lower(s)) == Lower(s)
  {
  }

  /** A string without capitals is its own lower-case form. */
  lemma LowerOfNoUpper(s: string)
    requires NoUpper(s)
    ensures Lower(s) == s
  {
  }

  /** Lowering works character by character, so it distributes over `+`. */
  lemma LowerConcat(a: string, b: string)
    ensures Lower(a + b) == Lower(a) + Lower(b)
  {
  }

  /** `k` occurs in `s` starting at position `i`. */
  predicate OccursAt(s: string, k: string, i: int) {
    0 <= i <= |s| - |k| && s[i..i + |k|] == k
  }

  /** `s.includes(k)`: `k` occurs in `s` as a contiguous substring. */
  predicate Contains(s: string, k: string) {
    exists i :: 0 <= i <= |s| - |k| && OccursAt(s, k, i)
  }

  /** `s.includes(k0) || s.includes(k1) || ...` over the list `ks`, in order. */
  function ContainsAny(s: string, ks: seq<string>): (r: bool)
    ensures r <==> exists j :: 0 <= j < |ks| && Contains(s, ks[j])
  {
    if ks == [] then false else Contains(s, ks[0]) || ContainsAny(s, ks[1..])
  }

  /** A substring of `s` is a substring of any text `s` sits in. */
  lemma ContainsExtend(a: string, s: string, b: string, k: string)
    requires Contains(s, k)
    ensures Contains(a + s + b, k)
  {
    var i :| 0 <= i <= |s| - |k| && OccursAt(s, k, i);
    var t := a + s + b;
    assert t[|a| + i..|a| + i + |k|] == s[i..i + |k|];
    assert OccursAt(t, k, |a| + i);
  }

  lemma ContainsAnyExtend(a: string, s: string, b: string, ks: seq<string>)
    requires ContainsAny(s, ks)
    ensures ContainsAny(a + s + b, ks)
  {
    var j :| 0 <= j < |ks| && Contains(s, ks[j]);
    ContainsExtend(a, s, b, ks[j]);
  }

  /** A non-empty keyword never occurs in the empty string. */
  lemma NotContainsInEmpty(k: string)
    requires k != []
    ensures !Contains([], k)
  {
  }

  // A search that compares characters one at a time, as an implementation
  // of `includes` would; it is proved to decide `Contains`.

  /** `k[j..]` matches `s` starting at position `i + j`. */
  predicate MatchesFrom(s: string, k: string, i: nat, j: nat)
    decreases |k| - j
  {
    j >= |k| || (i + j < |s| && s[i + j] == k[j] && MatchesFrom(s, k, i, j + 1))
  }

  /** Some position at or after `i` starts a match of `k`. */
  predicate FoundFrom(s: string, k: string, i: nat)
    decreases |s| - i
  {
    i + |k| <= |s| && (MatchesFrom(s, k, i, 0) || FoundFrom(s, k, i + 1))
  }

  lemma {:induction false} MatchesFromIff(s: string, k: string, i: nat, j: nat)
    requires j <= |k| && i + |k| <= |s|
    ensures MatchesFrom(s, k, i, j) <==> s[i + j..i + |k|] == k[j..]
    decreases |k| - j
  {
    if j < |k| {
      MatchesFromIff(s, k, i, j + 1);
      assert s[i + j..i + |k|] == [s[i + j]] + s[i + j + 1..i + |k|];
      assert k[j..] == [k[j]] + k[j + 1..];
    }
  }

  /** The search from `i` succeeds exactly when `k` occurs at some position `p >= i`. */
  lemma {:induction false} FoundFromIff(s: string, k: string, i: nat)
    ensures FoundFrom(s, k, i) <==> exists p :: i <= p && OccursAt(s, k, p)
    decreases |s| - i
  {
    if i + |k| <= |s| {
      MatchesFromIff(s, k, i, 0);
      FoundFromIff(s, k, i + 1);
      assert k[0..] == k;
      if MatchesFrom(s, k, i, 0) {
        assert OccursAt(s, k, i);
      }
      if exists p :: i <= p && OccursAt(s, k, p) {
        var p :| i <= p && OccursAt(s, k, p);
        if p > i {
          assert i + 1 <= p;
        }
      }
    }
  }

  lemma FoundIffContains(s: string, k: string)
    ensures FoundFrom(s, k, 0) <==> Contains(s, k)
  {
    FoundFromIff(s, k, 0);
  }

  /** The search run over every keyword of `ks` in turn. */
  predicate FoundAny(s: string, ks: seq<string>) {
    ks != [] && (FoundFrom(s, ks[0], 0) || FoundAny(s, ks[1..]))
  }

  lemma {:induction false} FoundAnyIff(s: string, ks: seq<string>)
    ensures FoundAny(s, ks) <==> ContainsAny(s, ks)
  {
    if ks != [] {
      FoundIffContains(s, ks[0]);
      FoundAnyIff(s, ks[1..]);
    }
  }

  // Text made of space-separated words. No keyword contains a space, so every
  // occurrence of a keyword lies inside a single word.

  /** Words joined by single spaces. */
  function JoinWords(ws: seq<string>): string {
    if |ws| == 0 then [] else if |ws| == 1 then ws[0] else ws[0] + " " + JoinWords(ws[1..])
  }

  function LowerWords(ws: seq<string>): (r: seq<string>)
    ensures |r| == |ws|
    ensures forall j :: 0 <= j < |ws| ==> r[j] == Lower(ws[j])
  {
    if ws == [] then [] else [Lower(ws[0])] + LowerWords(ws[1..])
  }

  lemma {:induction false} LowerJoin(ws: seq<string>)
    ensures Lower(JoinWords(ws)) == JoinWords(LowerWords(ws))
  {
    if |ws| > 1 {
      LowerJoin(ws[1..]);
      LowerConcat(ws[0], " " + JoinWords(ws[1..]));
      LowerConcat(" ", JoinWords(ws[1..]));
      assert Lower(" ") == " ";
      assert LowerWords(ws)[1..] == LowerWords(ws[1..]);
    }
  }

  /** An occurrence of a keyword without spaces lies wholly before or wholly after any space. */
  lemma OccurrenceAvoidsSpace(t: string, k: string, i: int, m: int)
    requires ' ' !in k && OccursAt(t, k, i)
    requires 0 <= m < |t| && t[m] == ' '
    ensures i + |k| <= m || m < i
  {
    forall j | i <= j < i + |k|
      ensures t[j] != ' '
    {
      assert t[j] == t[i..i + |k|][j - i] == k[j - i];
    }
  }

  /** So a keyword occurs in two words joined by a space exactly when it occurs in one of them. */
  lemma ContainsAroundSpace(a: string, b: string, k: string)
    requires ' ' !in k
    ensures Contains(a + " " + b, k) <==> Contains(a, k) || Contains(b, k)
  {
    var t := a + " " + b;
    if Contains(t, k) {
      var i :| 0 <= i <= |t| - |k| && OccursAt(t, k, i);
      OccurrenceAvoidsSpace(t, k, i, |a|);
      if i + |k| <= |a| {
        assert a[i..i + |k|] == t[i..i + |k|];
        assert OccursAt(a, k, i);
      } else {
        assert t[|a| + 1..] == b;
        assert b[i - |a| - 1..i - |a| - 1 + |k|] == t[|a| + 1..][i - |a| - 1..i - |a| - 1 + |k|] == t[i..i + |k|];
        assert OccursAt(b, k, i - |a| - 1);
      }
    }
    if Contains(a, k) {
      ContainsExtend([], a, " " + b, k);
      assert [] + a + (" " + b) == t;
    }
    if Contains(b, k) {
      ContainsExtend(a + " ", b, [], k);
      assert a + " " + b + [] == t;
    }
  }

  predicate NoSpaces(ks: seq<string>) {
    forall j :: 0 <= j < |ks| ==> ' ' !in ks[j]
  }

  lemma ContainsAnyAroundSpace(a: string, b: string, ks: seq<string>)
    requires NoSpaces(ks)
    ensures ContainsAny(a + " " + b, ks) <==> ContainsAny(a, ks) || ContainsAny(b, ks)
  {
    forall j | 0 <= j < |ks|
      ensures Contains(a + " " + b, ks[j]) <==> Contains(a, ks[j]) || Contains(b, ks[j])
    {
      ContainsAroundSpace(a, b, ks[j]);
    }
  }

  /** A keyword without spaces occurs in words joined by spaces exactly when it
      occurs in one of the words. */
  lemma {:induction false} ContainsAnyInWords(ws: seq<string>, ks: seq<string>)
    requires ws != [] && NoSpaces(ks)
    ensures ContainsAny(JoinWords(ws), ks) <==> exists x :: 0 <= x < |ws| && ContainsAny(ws[x], ks)
  {
    if |ws| > 1 {
      ContainsAnyInWords(ws[1..], ks);
      ContainsAnyAroundSpace(ws[0], JoinWords(ws[1..]), ks);
      if exists x :: 0 <= x < |ws| && ContainsAny(ws[x], ks) {
        var x :| 0 <= x < |ws| && ContainsAny(ws[x], ks);
        if x > 0 {
          assert ws[1..][x - 1] == ws[x];
        }
      }
      if exists x :: 0 <= x < |ws[1..]| && ContainsAny(ws[1..][x], ks) {
        var x :| 0 <= x < |ws[1..]| && ContainsAny(ws[1..][x], ks);
        assert ws[1..][x] == ws[x + 1];
      }
    }
  }

  /** The same after lower-casing: lowering works word by word. */
  lemma ContainsAnyInLowerWords(ws: seq<string>, ks: seq<string>)
    requires ws != [] && NoSpaces(ks)
    ensures ContainsAny(Lower(JoinWords(ws)), ks) <==> exists x :: 0 <= x < |ws| && ContainsAny(Lower(ws[x]), ks)
  {
    var lws := LowerWords(ws);
    LowerJoin(ws);
    ContainsAnyInWords(lws, ks);
    if exists x :: 0 <= x < |ws| && ContainsAny(Lower(ws[x]), ks) {
      var x :| 0 <= x < |ws| && ContainsAny(Lower(ws[x]), ks);
      assert ContainsAny(lws[x], ks);
    }
  }

  // `String.prototype.trim` removes ECMAScript white space and line terminators
  // from both ends.

  /** ECMAScript WhiteSpace (tab, vertical tab, form feed, space, no-break space,
      zero-width no-break space and the other space separators of category Zs)
      and LineTerminator (line feed, carriage return, line and paragraph
      separator). */
  predicate IsWhitespace(c: char) {
    c == '\t' || c == '\U{000B}' || c == '\U{000C}' || c == ' ' || c == '\U{00A0}' || c == '\U{FEFF}' ||
    c == '\U{1680}' || ('\U{2000}' <= c <= '\U{200A}') || c == '\U{202F}' || c == '\U{205F}' || c == '\U{3000}' ||
    c == '\n' || c == '\r' || c == '\U{2028}' || c == '\U{2029}'
  }

  predicate AllWhitespace(s: string) {
    forall i :: 0 <= i < |s| ==> IsWhitespace(s[i])
  }

  /** Drops the longest all-white-space prefix: the result is a suffix of `s` that
      is empty or starts with a non-white-space character. */
  function TrimStart(s: string): (r: string)
    ensures |r| <= |s| && r == s[|s| - |r|..]
    ensures AllWhitespace(s[..|s| - |r|])
    ensures r == [] || !IsWhitespace(r[0])
  {
    if s != [] && IsWhitespace(s[0]) then TrimStart(s[1..]) else s
  }

  /** Drops the longest all-white-space suffix. */
  function TrimEnd(s: string): (r: string)
    ensures |r| <= |s| && r == s[..|r|]
    ensures AllWhitespace(s[|r|..])
    ensures r == [] || !IsWhitespace(r[|r| - 1])
  {
    if s != [] && IsWhitespace(s[|s| - 1]) then TrimEnd(s[..|s| - 1]) else s
  }

  /** `s.trim()`: the slice of `s` left once white space is dropped at both ends. */
  function Trim(s: string): (r: string)
    ensures exists a ::
              0 <= a <= |s| - |r| && r == s[a..a + |r|] && AllWhitespace(s[..a]) && AllWhitespace(s[a + |r|..])
    ensures r == [] || (!IsWhitespace(r[0]) && !IsWhitespace(r[|r| - 1]))
  {
    var t := TrimStart(s);
    var r := TrimEnd(t);
    var a := |s| - |t|;
    assert r == s[a..a + |r|];
    assert s[a + |r|..] == t[|r|..];
    TrimEnd(t)
  }

  /** Trimming leaves nothing exactly when every character is white space. */
  lemma TrimEmptyIff(s: string)
    ensures Trim(s) == [] <==> AllWhitespace(s)
  {
    var r := Trim(s);
    var a :| 0 <= a <= |s| - |r| && r == s[a..a + |r|] && AllWhitespace(s[..a]) && AllWhitespace(s[a + |r|..]);
    if r == [] {
      forall i | 0 <= i < |s|
        ensures IsWhitespace(s[i])
      {
        if i < a {
          assert s[..a][i] == s[i];
        } else {
          assert s[a..][i - a] == s[i];
        }
      }
    } else {
      assert s[a] == r[0];
    }
  }

  /** Trimming twice is trimming once. */
  lemma TrimIdempotent(s: string)
    ensures Trim(Trim(s)) == Trim(s)
  {
    var r := Trim(s);
    if r != [] {
      assert TrimStart(r) == r;
      assert TrimEnd(r) == r;
    }
  }
}
