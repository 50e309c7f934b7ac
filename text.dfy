/**
 * The Kotlin string operations the app relies on, on `seq<char>`:
 * `contains(other, ignoreCase = true)`, `joinToString(separator)` and
 * `replace(oldValue, newValue)`.
 */
module Text {

  /** Per-character case folding, restricted to the ASCII letters A-Z. */
  function Fold(c: char): (f: char)
    ensures 'A' <= c <= 'Z' ==> f as int == c as int + 32
    ensures !('A' <= c <= 'Z') ==> f == c
  {
    if 'A' <= c <= 'Z' then (c as int + 32) as char else c
  }

  /** Folding twice is folding once: a folded character is never an upper-case ASCII letter. */
  lemma FoldIdempotent(c: char)
    ensures !('A' <= Fold(c) <= 'Z')
    ensures Fold(Fold(c)) == Fold(c)
  {
  }

  /**
   * Two characters fold alike exactly when they are equal or are the same
   * ASCII letter in its two cases.
   */
  lemma FoldSame(c: char, d: char)
    ensures Fold(c) == Fold(d) <==>
      || c == d
      || ('A' <= c <= 'Z' && d as int == c as int + 32)
      || ('A' <= d <= 'Z' && c as int == d as int + 32)
  {
  }

  /** `t` starts with `q`, comparing folded characters. */
  predicate PrefixMatches(t: string, q: string) {
    |q| <= |t| && forall j :: 0 <= j < |q| ==> Fold(t[j]) == Fold(q[j])
  }

  /** `q` occurs in `t` at offset `i`, comparing folded characters. */
  predicate MatchesAt(t: string, i: int, q: string) {
    0 <= i <= |t| - |q| && PrefixMatches(t[i..], q)
  }

  /** Two strings that differ only in the case of their letters. */
  predicate SameUpToCase(q1: string, q2: string) {
    |q1| == |q2| && forall j :: 0 <= j < |q1| ==> Fold(q1[j]) == Fold(q2[j])
  }

  lemma MatchesAtTail(t: string, i: int, q: string)
    requires |t| > 0 && i > 0
    ensures MatchesAt(t, i, q) <==> MatchesAt(t[1..], i - 1, q)
  {
    if 0 <= i - 1 <= |t| - 1 - |q| {
      assert t[1..][i - 1..] == t[i..];
    }
  }

  /** Kotlin's `t.contains(q, ignoreCase = true)`, scanning left to right. */
  function ContainsIgnoreCase(t: string, q: string): (r: bool)
    ensures r <==> exists i :: MatchesAt(t, i, q)
    decreases |t|
  {
    assert t[0..] == t;
    if |q| > |t| then
      assert forall i :: !MatchesAt(t, i, q);
      false
    else if PrefixMatches(t, q) then
      assert MatchesAt(t, 0, q);
      true
    else
      assert |t| > 0;
      var rest := ContainsIgnoreCase(t[1..], q);
      assert forall i :: i > 0 ==> (MatchesAt(t, i, q) <==> MatchesAt(t[1..], i - 1, q)) by {
        forall i | i > 0 { MatchesAtTail(t, i, q); }
      }
      assert rest ==> exists i :: MatchesAt(t, i, q) by {
        if rest {
          var k :| MatchesAt(t[1..], k, q);
          assert MatchesAt(t, k + 1, q);
        }
      }
      assert !MatchesAt(t, 0, q);
      rest
  }

  /** Matching ignores case: queries that differ only in letter case match the same texts. */
  lemma ContainsIgnoresQueryCase(t: string, q1: string, q2: string)
    requires SameUpToCase(q1, q2)
    ensures ContainsIgnoreCase(t, q1) == ContainsIgnoreCase(t, q2)
  {
    forall i | MatchesAt(t, i, q1) ensures MatchesAt(t, i, q2) {
      assert forall j :: 0 <= j < |q2| ==> Fold(t[i..][j]) == Fold(q1[j]) == Fold(q2[j]);
    }
    forall i | MatchesAt(t, i, q2) ensures MatchesAt(t, i, q1) {
      assert forall j :: 0 <= j < |q1| ==> Fold(t[i..][j]) == Fold(q2[j]) == Fold(q1[j]);
    }
  }

  /** Every text contains the empty query. */
  lemma ContainsEmpty(t: string)
    ensures ContainsIgnoreCase(t, "")
  {
    assert MatchesAt(t, 0, "");
  }

  /**
   * Kotlin's `String.length`: UTF-16 code units, so a character outside the
   * Basic Multilingual Plane counts twice.
   */
  function Utf16Length(s: string): (n: nat)
    ensures |s| <= n <= 2 * |s|
  {
    if s == [] then 0
    else (if s[0] as int < 0x1_0000 then 1 else 2) + Utf16Length(s[1..])
  }

  /** Within the Basic Multilingual Plane the UTF-16 length is the number of characters. */
  lemma {:induction false} Utf16LengthBmp(s: string)
    requires forall i :: 0 <= i < |s| ==> s[i] as int < 0x1_0000
    ensures Utf16Length(s) == |s|
  {
    if s != [] {
      assert forall i :: 0 <= i < |s| - 1 ==> s[1..][i] == s[i + 1];
      Utf16LengthBmp(s[1..]);
    }
  }

  /** The UTF-16 length of a concatenation is the sum of the lengths. */
  lemma {:induction false} Utf16LengthAppend(a: string, b: string)
    ensures Utf16Length(a + b) == Utf16Length(a) + Utf16Length(b)
  {
    if a != [] {
      assert (a + b)[1..] == a[1..] + b;
      Utf16LengthAppend(a[1..], b);
    } else {
      assert a + b == b;
    }
  }

  /** Kotlin's `xs.joinToString(sep)`. */
  function JoinToString(xs: seq<string>, sep: string): string {
    if xs == [] then ""
    else if |xs| == 1 then xs[0]
    else xs[0] + sep + JoinToString(xs[1..], sep)
  }

  function TotalLength(xs: seq<string>): nat {
    if xs == [] then 0 else |xs[0]| + TotalLength(xs[1..])
  }

  /** A join holds every element and one separator between each two neighbours. */
  lemma {:induction false} JoinLength(xs: seq<string>, sep: string)
    ensures |JoinToString(xs, sep)| == TotalLength(xs) + (if xs == [] then 0 else (|xs| - 1) * |sep|)
  {
    if |xs| > 1 {
      JoinLength(xs[1..], sep);
      assert (|xs| - 1) * |sep| == (|xs| - 2) * |sep| + |sep|;
    }
  }

  /** The join of a list of two or more is its first element, the separator, then the join of the rest. */
  lemma JoinCons(a: string, rest: seq<string>, sep: string)
    requires rest != []
    ensures JoinToString([a] + rest, sep) == a + sep + JoinToString(rest, sep)
  {
    assert ([a] + rest)[1..] == rest;
  }

  /** Where element `k` starts in a join: after the first `k` elements and `k` separators. */
  function ElementOffset(xs: seq<string>, sep: string, k: nat): nat
    requires k <= |xs|
  {
    TotalLength(xs[..k]) + k * |sep|
  }

  lemma ElementOffsetTail(xs: seq<string>, sep: string, k: nat)
    requires 0 < k <= |xs|
    ensures ElementOffset(xs, sep, k) == |xs[0]| + |sep| + ElementOffset(xs[1..], sep, k - 1)
  {
    assert xs[..k][0] == xs[0];
    assert xs[..k][1..] == xs[1..][..k - 1];
    assert k * |sep| == |sep| + (k - 1) * |sep|;
  }

  /** Element `k` appears in the join, in its place. */
  lemma {:induction false} JoinElementAt(xs: seq<string>, sep: string, k: nat)
    requires k < |xs|
    ensures OccursAt(JoinToString(xs, sep), ElementOffset(xs, sep, k), xs[k])
  {
    var j := JoinToString(xs, sep);
    if k == 0 {
      assert xs[..0] == [];
      JoinStartsWithFirst(xs, sep);
    } else {
      var rest := JoinToString(xs[1..], sep);
      assert j == xs[0] + sep + rest;
      JoinElementAt(xs[1..], sep, k - 1);
      ElementOffsetTail(xs, sep, k);
      var o' := ElementOffset(xs[1..], sep, k - 1);
      var o := ElementOffset(xs, sep, k);
      assert j[o..o + |xs[k]|] == rest[o'..o' + |xs[k]|];
    }
  }

  /** The separator appears right after every element but the last. */
  lemma {:induction false} JoinSeparatorAt(xs: seq<string>, sep: string, k: nat)
    requires k + 1 < |xs|
    ensures OccursAt(JoinToString(xs, sep), ElementOffset(xs, sep, k) + |xs[k]|, sep)
  {
    var j := JoinToString(xs, sep);
    var rest := JoinToString(xs[1..], sep);
    assert j == xs[0] + sep + rest;
    if k == 0 {
      assert xs[..0] == [];
      assert j[|xs[0]|..|xs[0]| + |sep|] == sep;
    } else {
      JoinSeparatorAt(xs[1..], sep, k - 1);
      ElementOffsetTail(xs, sep, k);
      var o' := ElementOffset(xs[1..], sep, k - 1) + |xs[k]|;
      var o := ElementOffset(xs, sep, k) + |xs[k]|;
      assert j[o..o + |sep|] == rest[o'..o' + |sep|];
    }
  }

  /** A join starts with its first element. */
  lemma {:induction false} JoinStartsWithFirst(xs: seq<string>, sep: string)
    requires xs != []
    ensures |xs[0]| <= |JoinToString(xs, sep)| && JoinToString(xs, sep)[..|xs[0]|] == xs[0]
  {
  }

  /** `pat` occurs in `s` at offset `i`. */
  predicate OccursAt(s: string, i: int, pat: string) {
    0 <= i && i + |pat| <= |s| && s[i..i + |pat|] == pat
  }

  ghost predicate Occurs(s: string, pat: string) {
    exists i :: OccursAt(s, i, pat)
  }

  /**
   * Kotlin's `s.replace(pat, rep)`: every leftmost non-overlapping
   * occurrence of `pat` is replaced by `rep`.
   */
  function ReplaceAll(s: string, pat: string, rep: string): string
    requires |pat| > 0
    decreases |s|
  {
    if |s| < |pat| then s
    else if s[..|pat|] == pat then rep + ReplaceAll(s[|pat|..], pat, rep)
    else [s[0]] + ReplaceAll(s[1..], pat, rep)
  }

  lemma OccursAtTail(s: string, i: int, pat: string)
    requires |s| > 0 && i >= 0
    ensures OccursAt(s[1..], i, pat) <==> OccursAt(s, i + 1, pat)
  {
    if i + |pat| <= |s| - 1 {
      assert s[1..][i..i + |pat|] == s[i + 1..i + 1 + |pat|];
    }
  }

  /** A string without any occurrence of the pattern is left unchanged. */
  lemma {:induction false} ReplaceWithoutOccurrence(s: string, pat: string, rep: string)
    requires |pat| > 0 && !Occurs(s, pat)
    ensures ReplaceAll(s, pat, rep) == s
  {
    if |s| >= |pat| {
      assert !OccursAt(s, 0, pat);
      forall i | OccursAt(s[1..], i, pat) ensures false {
        OccursAtTail(s, i, pat);
      }
      ReplaceWithoutOccurrence(s[1..], pat, rep);
    }
  }

  /**
   * Up to the first place where a replacement was written (recognised by
   * the replacement's first character), the result is a copy of the input.
   */
  lemma {:induction false} CopiedPrefix(s: string, pat: string, rep: string, k: nat)
    requires |pat| > 0 && |rep| > 0
    requires k <= |ReplaceAll(s, pat, rep)|
    requires forall j :: 0 <= j < k ==> ReplaceAll(s, pat, rep)[j] != rep[0]
    ensures k <= |s| && ReplaceAll(s, pat, rep)[..k] == s[..k]
  {
    var r := ReplaceAll(s, pat, rep);
    if |s| >= |pat| && k > 0 {
      assert r[0] != rep[0];
      assert s[..|pat|] != pat;
      var r' := ReplaceAll(s[1..], pat, rep);
      assert r == [s[0]] + r';
      assert forall j :: 0 <= j < k - 1 ==> r'[j] == r[j + 1];
      CopiedPrefix(s[1..], pat, rep, k - 1);
      forall j | 0 <= j < k ensures r[j] == s[j] {
        if j > 0 {
          assert r[j] == r'[..k - 1][j - 1] == s[1..][..k - 1][j - 1];
        }
      }
    }
  }

  /** Upgrading "http://" to "https://" leaves no "http://" anywhere in the result. */
  lemma {:induction false} HttpsUpgradeComplete(s: string)
    ensures !Occurs(ReplaceAll(s, "http://", "https://"), "http://")
  {
    if |s| < 7 {
      assert |ReplaceAll(s, "http://", "https://")| < 7;
    } else if s[..7] == "http://" {
      HttpsUpgradeComplete(s[7..]);
      HttpsUpgradeAfterMatch(s);
    } else {
      HttpsUpgradeComplete(s[1..]);
      HttpsUpgradeAfterCopy(s);
    }
  }

  /** The step of `HttpsUpgradeComplete` where the string starts with "http://". */
  lemma {:induction false} HttpsUpgradeAfterMatch(s: string)
    requires |s| >= 7 && s[..7] == "http://"
    requires !Occurs(ReplaceAll(s[7..], "http://", "https://"), "http://")
    ensures !Occurs(ReplaceAll(s, "http://", "https://"), "http://")
  {
    var r := ReplaceAll(s, "http://", "https://");
    var r' := ReplaceAll(s[7..], "http://", "https://");
    assert r == "https://" + r';
    forall i | 0 <= i ensures !OccursAt(r, i, "http://") {
      if i >= 8 {
        if i + 7 <= |r| {
          assert r'[i - 8..i - 8 + 7] == r[i..i + 7];
          assert !OccursAt(r', i - 8, "http://");
        }
      } else if i == 0 {
        assert r[4] == 's';
      } else {
        assert r[i] != 'h';
      }
    }
  }

  /** The step of `HttpsUpgradeComplete` where the first character is copied. */
  lemma {:induction false} HttpsUpgradeAfterCopy(s: string)
    requires |s| >= 7 && s[..7] != "http://"
    requires !Occurs(ReplaceAll(s[1..], "http://", "https://"), "http://")
    ensures !Occurs(ReplaceAll(s, "http://", "https://"), "http://")
  {
    var r := ReplaceAll(s, "http://", "https://");
    var r' := ReplaceAll(s[1..], "http://", "https://");
    assert r == [s[0]] + r';
    forall i | 1 <= i ensures !OccursAt(r, i, "http://") {
      if i + 7 <= |r| {
        assert r'[i - 1..i - 1 + 7] == r[i..i + 7];
        assert !OccursAt(r', i - 1, "http://");
      }
    }
    assert !OccursAt(r, 0, "http://") by {
      if |r| >= 7 && r[0] == 'h' {
        if exists j :: 0 <= j < 6 && r'[j] == 'h' {
          var j :| 0 <= j < 6 && r'[j] == 'h';
          assert r[j + 1] == 'h';
        } else {
          CopiedPrefix(s[1..], "http://", "https://", 6);
          assert s[..7] == [s[0]] + s[1..][..6];
          assert r[..7] == [r[0]] + r'[..6];
        }
      }
    }
  }
}
