/** The few Python `str` operations the core relies on, with Python's semantics:
    `find`, slicing with negative and out-of-range bounds, `replace`,
    `split` on one character, `startswith`, `lower` and `<` between strings. */
module PyStr {
  import opened Common

  /** `sub` occurs in `s` starting at index `i`. */
  predicate OccursAt(s: string, sub: string, i: nat) {
    i + |sub| <= |s| && s[i..i + |sub|] == sub
  }

  /** `sub` occurs in `s` at some index. */
  predicate Contains(s: string, sub: string) {
    exists i: nat | i <= |s| :: OccursAt(s, sub, i)
  }

  /** Python's `s.find(sub, start)`: the lowest index `>= start` at which `sub`
      occurs, or -1. */
  function Find(s: string, sub: string, start: nat): (r: int)
    ensures r == -1 || (start <= r && OccursAt(s, sub, r))
    ensures r == -1 ==> forall i: nat :: start <= i ==> !OccursAt(s, sub, i)
    ensures r != -1 ==> forall i: nat :: start <= i < r ==> !OccursAt(s, sub, i)
    decreases |s| - start
  {
    if start + |sub| > |s| then -1
    else if s[start..start + |sub|] == sub then start
    else Find(s, sub, start + 1)
  }

  /** A Python slice bound normalised against a length `n`. */
  function SliceBound(i: int, n: nat): (r: nat)
    ensures r <= n
    ensures 0 <= i <= n ==> r == i
  {
    if i < 0 then (if i + n < 0 then 0 else i + n) else if i > n then n else i
  }

  /** Python's `s[a:b]`: negative bounds count from the end, bounds are
      clamped, and an empty range gives the empty string. */
  function PySlice(s: string, a: int, b: int): (r: string)
    ensures 0 <= a <= b <= |s| ==> r == s[a..b]
    ensures 0 <= b <= a ==> r == ""
    ensures |r| <= |s|
    ensures -|s| <= b < 0 && 0 <= a <= |s| + b ==> r == s[a..|s| + b]
    ensures -|s| <= b < 0 && |s| + b <= a ==> r == ""
    ensures -|s| <= a < 0 && |s| + a <= b <= |s| ==> r == s[|s| + a..b]
    ensures 0 <= a <= |s| < b ==> r == s[a..]
    ensures b <= -|s| || |s| <= a ==> r == ""
  {
    var lo := SliceBound(a, |s|);
    var hi := SliceBound(b, |s|);
    if lo < hi then s[lo..hi] else ""
  }

  /** Python's `s.replace(pat, rep)` for a non-empty `pat`: occurrences are
      found from the left and do not overlap. */
  function Replace(s: string, pat: string, rep: string): string
    requires |pat| > 0
  {
    if |s| < |pat| then s
    else if s[..|pat|] == pat then rep + Replace(s[|pat|..], pat, rep)
    else [s[0]] + Replace(s[1..], pat, rep)
  }

  /** `find` returns the occurrence that no other occurrence from `start`
      precedes. */
  lemma FindFirst(s: string, sub: string, start: nat, k: nat)
    requires start <= k && OccursAt(s, sub, k)
    requires forall i: nat :: start <= i < k ==> !OccursAt(s, sub, i)
    ensures Find(s, sub, start) == k
  {
  }

  /** One differing character rules out a match at `i`. */
  lemma MismatchAt(s: string, sub: string, i: nat, j: nat)
    requires j < |sub| && i + j < |s| && s[i + j] != sub[j]
    ensures !OccursAt(s, sub, i)
  {
    if i + |sub| <= |s| {
      assert s[i..i + |sub|][j] == s[i + j];
    }
  }

  /** No match starts inside a prefix that lacks the first character of `sub`. */
  lemma FirstCharAbsent(a: string, b: string, sub: string)
    requires |sub| > 0 && sub[0] !in a
    ensures forall i: nat :: i < |a| ==> !OccursAt(a + b, sub, i)
  {
    forall i: nat | i < |a| ensures !OccursAt(a + b, sub, i) {
      assert (a + b)[i] == a[i];
      MismatchAt(a + b, sub, i, 0);
    }
  }

  /** No match of `sub` starts inside a prefix `a` that lacks its second
      character, when `sub` itself follows `a`. */
  lemma SecondCharAbsent(a: string, sub: string, b: string)
    requires |sub| >= 2 && sub[1] !in a && sub[0] != sub[1]
    ensures forall i: nat :: i < |a| ==> !OccursAt(a + sub + b, sub, i)
  {
    var s := a + sub + b;
    forall i: nat | i < |a| ensures !OccursAt(s, sub, i) {
      if i + 1 < |a| {
        assert s[i + 1] == a[i + 1];
      } else {
        assert s[i + 1] == sub[0];
      }
      MismatchAt(s, sub, i, 1);
    }
  }

  /** Shifting a match past a prefix `u`. */
  lemma OccursAfter(u: string, v: string, sub: string, i: nat)
    ensures OccursAt(u + v, sub, |u| + i) <==> OccursAt(v, sub, i)
  {
    if i + |sub| <= |v| {
      assert (u + v)[|u| + i..|u| + i + |sub|] == v[i..i + |sub|];
    }
  }

  /** A string without an occurrence of `pat` is left as it is. */
  lemma {:induction false} ReplaceWithoutOccurrence(s: string, pat: string, rep: string)
    requires |pat| > 0 && !Contains(s, pat)
    ensures Replace(s, pat, rep) == s
  {
    if |s| >= |pat| {
      assert !OccursAt(s, pat, 0);
      var t := s[1..];
      assert s == [s[0]] + t;
      forall i: nat | i <= |t| ensures !OccursAt(t, pat, i) {
        OccursAfter([s[0]], t, pat, i);
        assert !OccursAt(s, pat, 1 + i);
      }
      ReplaceWithoutOccurrence(t, pat, rep);
    }
  }

  /** The leftmost occurrence is the one replaced: when `pat` does not start
      anywhere inside `a`, `a + pat + b` becomes `a + rep` followed by the
      replacement of `b`. */
  lemma {:induction false} ReplaceLeftmost(a: string, pat: string, rep: string, b: string)
    requires |pat| > 0
    requires forall i: nat :: i < |a| ==> !OccursAt(a + pat + b, pat, i)
    ensures Replace(a + pat + b, pat, rep) == a + rep + Replace(b, pat, rep)
  {
    var s := a + pat + b;
    if |a| == 0 {
      assert s == pat + b;
      assert s[..|pat|] == pat;
      assert s[|pat|..] == b;
    } else {
      var t := a[1..] + pat + b;
      assert s == [a[0]] + t;
      assert s[1..] == t;
      assert !OccursAt(s, pat, 0);
      assert Replace(s, pat, rep) == [a[0]] + Replace(t, pat, rep);
      forall i: nat | i < |a[1..]| ensures !OccursAt(t, pat, i) {
        OccursAfter([a[0]], t, pat, i);
        assert !OccursAt(s, pat, 1 + i);
      }
      ReplaceLeftmost(a[1..], pat, rep, b);
      assert a + rep + Replace(b, pat, rep) == [a[0]] + (a[1..] + rep + Replace(b, pat, rep));
    }
  }

  /** While every character read so far lies in `pat`'s alphabet, the output of
      a replacement by a non-empty `rep` foreign to that alphabet agrees with
      its input: no copy of `rep` has been emitted yet. */
  lemma {:induction false} ReplacePrefixKept(t: string, pat: string, rep: string, k: nat)
    requires |pat| > 0 && |rep| > 0
    requires forall i :: 0 <= i < |rep| ==> rep[i] !in pat
    requires k <= |Replace(t, pat, rep)|
    ensures (forall j :: 0 <= j < k ==> Replace(t, pat, rep)[j] in pat) ==>
              k <= |t| && Replace(t, pat, rep)[..k] == t[..k]
  {
    var r := Replace(t, pat, rep);
    if k == 0 {
    } else if |t| < |pat| {
    } else if t[..|pat|] == pat {
      assert r[0] == rep[0];
      assert r[0] !in pat;
    } else {
      var r' := Replace(t[1..], pat, rep);
      assert r == [t[0]] + r';
      ReplacePrefixKept(t[1..], pat, rep, k - 1);
      if forall j :: 0 <= j < k ==> r[j] in pat {
        forall j | 0 <= j < k - 1 ensures r'[j] in pat {
          assert r'[j] == r[j + 1];
        }
        assert r[..k] == [t[0]] + r'[..k - 1];
        assert t[..k] == [t[0]] + t[1..][..k - 1];
      }
    }
  }

  /** A character `c` copied in front of the replacement of `t` starts a match
      only if it already started one in front of `t`, when `rep` is non-empty
      and foreign to `pat`'s alphabet. */
  lemma ReplaceHeadKept(c: char, t: string, pat: string, rep: string)
    requires |pat| > 0 && |rep| > 0
    requires forall i :: 0 <= i < |rep| ==> rep[i] !in pat
    ensures OccursAt([c] + Replace(t, pat, rep), pat, 0) ==> OccursAt([c] + t, pat, 0)
  {
    var r' := Replace(t, pat, rep);
    var r := [c] + r';
    if OccursAt(r, pat, 0) {
      assert |pat| - 1 <= |r'|;
      forall j | 0 <= j < |pat| - 1 ensures r'[j] in pat {
        assert r'[j] == r[j + 1];
        assert r[j + 1] == pat[j + 1];
      }
      ReplacePrefixKept(t, pat, rep, |pat| - 1);
      assert r[..|pat|] == [c] + r'[..|pat| - 1];
      assert ([c] + t)[..|pat|] == [c] + t[..|pat| - 1];
    }
  }

  /** A non-empty replacement that shares no character with `pat` leaves no
      occurrence of `pat` behind. */
  lemma {:induction false} ReplaceLeavesNoOccurrence(s: string, pat: string, rep: string)
    requires |pat| > 0 && |rep| > 0
    requires forall i :: 0 <= i < |rep| ==> rep[i] !in pat
    ensures !Contains(Replace(s, pat, rep), pat)
  {
    if |s| < |pat| {
      var r := Replace(s, pat, rep);
      forall i: nat | i <= |r| ensures !OccursAt(r, pat, i) {}
    } else if s[..|pat|] == pat {
      ReplaceLeavesNoOccurrence(s[|pat|..], pat, rep);
      NoOccurrenceAfterRep(rep, Replace(s[|pat|..], pat, rep), pat);
    } else {
      ReplaceLeavesNoOccurrence(s[1..], pat, rep);
      assert [s[0]] + s[1..] == s;
      NoOccurrenceAfterCopy(s[0], s[1..], pat, rep);
    }
  }

  /** A replacement foreign to `pat`'s alphabet, in front of a string without
      `pat`, starts no occurrence. */
  lemma NoOccurrenceAfterRep(rep: string, r': string, pat: string)
    requires |pat| > 0
    requires forall i :: 0 <= i < |rep| ==> rep[i] !in pat
    requires !Contains(r', pat)
    ensures !Contains(rep + r', pat)
  {
    var r := rep + r';
    forall i: nat | i <= |r| ensures !OccursAt(r, pat, i) {
      if i < |rep| {
        assert r[i] == rep[i];
        MismatchAt(r, pat, i, 0);
      } else {
        OccursAfter(rep, r', pat, i - |rep|);
      }
    }
  }

  /** A character copied in front of an occurrence-free replacement starts no
      occurrence when it started none in the input. */
  lemma NoOccurrenceAfterCopy(c: char, t: string, pat: string, rep: string)
    requires |pat| > 0 && |rep| > 0
    requires forall i :: 0 <= i < |rep| ==> rep[i] !in pat
    requires !Contains(Replace(t, pat, rep), pat)
    requires !OccursAt([c] + t, pat, 0)
    ensures !Contains([c] + Replace(t, pat, rep), pat)
  {
    var r' := Replace(t, pat, rep);
    var r := [c] + r';
    forall i: nat | i <= |r| ensures !OccursAt(r, pat, i) {
      if i == 0 {
        ReplaceHeadKept(c, t, pat, rep);
      } else {
        OccursAfter([c], r', pat, i - 1);
      }
    }
  }

  /** Python's `s.replace(c, '')`: every `c` removed. */
  function Strip(s: string, c: char): string {
    Replace(s, [c], "")
  }

  lemma {:induction false} StripSpec(s: string, c: char)
    ensures c !in Strip(s, c)
    ensures forall x :: x in Strip(s, c) <==> x in s && x != c
    ensures c !in s ==> Strip(s, c) == s
  {
    if |s| == 0 {
    } else {
      StripSpec(s[1..], c);
      if s[..1] == [c] {
        assert s[0] == c;
        assert Strip(s, c) == Strip(s[1..], c);
        assert s == [s[0]] + s[1..];
      } else {
        assert s[0] != c;
        assert Strip(s, c) == [s[0]] + Strip(s[1..], c);
        assert s == [s[0]] + s[1..];
      }
    }
  }

  /** Python's `s.split(c)` for a single separator character. */
  function Split(s: string, c: char): (r: seq<string>)
    ensures |r| >= 1
  {
    if |s| == 0 then [""]
    else if s[0] == c then [""] + Split(s[1..], c)
    else var t := Split(s[1..], c); [[s[0]] + t[0]] + t[1..]
  }

  /** Splitting a separator-free string gives that string alone. */
  lemma {:induction false} SplitNoSep(s: string, c: char)
    requires c !in s
    ensures Split(s, c) == [s]
  {
    if |s| > 0 {
      assert c !in s[1..];
      SplitNoSep(s[1..], c);
      assert s == [s[0]] + s[1..];
    }
  }

  /** Splitting at a leading separator-free field: `Split(a + c + b)` is `a`
      followed by the fields of `b`. */
  lemma {:induction false} SplitFirst(a: string, c: char, b: string)
    requires c !in a
    ensures Split(a + [c] + b, c) == [a] + Split(b, c)
  {
    if |a| == 0 {
      assert a + [c] + b == [c] + b;
      assert ([c] + b)[1..] == b;
    } else {
      var s := a + [c] + b;
      assert s[0] == a[0] && s[0] != c;
      assert s[1..] == a[1..] + [c] + b;
      assert c !in a[1..];
      SplitFirst(a[1..], c, b);
      assert a == [a[0]] + a[1..];
    }
  }

  /** The number of fields is one more than the number of separators. */
  lemma {:induction false} SplitCount(s: string, c: char)
    ensures |Split(s, c)| == CountOf(s, c) + 1
  {
    if |s| > 0 {
      SplitCount(s[1..], c);
    }
  }

  /** Python's `s.startswith(prefix)`. */
  predicate StartsWith(s: string, prefix: string) {
    |prefix| <= |s| && s[..|prefix|] == prefix
  }

  /** ASCII case folding of one character. */
  function LowerChar(c: char): char {
    if 'A' <= c <= 'Z' then (c as int + 32) as char else c
  }

  /** Python's `s.lower()` on ASCII letters: the same length, every upper-case
      letter replaced by its lower-case form, every other character kept. */
  function Lower(s: string): (r: string)
    ensures |r| == |s|
    ensures forall i :: 0 <= i < |s| ==> r[i] == LowerChar(s[i])
  {
    if |s| == 0 then "" else [LowerChar(s[0])] + Lower(s[1..])
  }

  /** Python's `a < b` on strings: lexicographic order on code points, a proper
      prefix being smaller. */
  predicate StrLt(a: string, b: string) {
    if |a| == 0 then |b| > 0
    else if |b| == 0 then false
    else if a[0] == b[0] then StrLt(a[1..], b[1..])
    else a[0] < b[0]
  }

  lemma {:induction false} StrLtIrreflexive(a: string)
    ensures !StrLt(a, a)
  {
    if |a| > 0 {
      StrLtIrreflexive(a[1..]);
    }
  }

  lemma {:induction false} StrLtTransitive(a: string, b: string, c: string)
    requires StrLt(a, b) && StrLt(b, c)
    ensures StrLt(a, c)
  {
    if |a| > 0 && |b| > 0 && |c| > 0 && a[0] == b[0] && b[0] == c[0] {
      StrLtTransitive(a[1..], b[1..], c[1..]);
    }
  }

  lemma {:induction false} StrLtAsymmetric(a: string, b: string)
    requires StrLt(a, b)
    ensures !StrLt(b, a)
  {
    if |a| > 0 && |b| > 0 && a[0] == b[0] {
      StrLtAsymmetric(a[1..], b[1..]);
    }
  }

  lemma {:induction false} StrLtTotal(a: string, b: string)
    ensures a == b || StrLt(a, b) || StrLt(b, a)
  {
    if |a| > 0 && |b| > 0 && a[0] == b[0] {
      StrLtTotal(a[1..], b[1..]);
      if a[1..] == b[1..] {
        assert a == [a[0]] + a[1..] && b == [b[0]] + b[1..];
      }
    }
  }
}
