/** The standard-library string operations the scanners rely on: `str::find`,
    `str::contains`, `str::split`, joining, `str::repeat` and `str::trim`.

    A string is a sequence of characters, one character per byte of the
    source's UTF-8 text; the scanned Java lines are taken to be ASCII. */
module Text {
  import opened Wrappers

  /** `pat` occurs in `s` starting at index `i`. */
  predicate OccursAt(s: string, pat: string, i: nat) {
    i + |pat| <= |s| && s[i..i + |pat|] == pat
  }

  /** `str::find` from index `from` on: the first occurrence at or after `from`. */
  function FindFrom(s: string, pat: string, from: nat): (r: Option<nat>)
    requires from <= |s|
    ensures r.Some? ==> from <= r.value && OccursAt(s, pat, r.value)
    ensures r.Some? ==> forall i :: from <= i < r.value ==> !OccursAt(s, pat, i)
    ensures r.None? ==> forall i :: from <= i <= |s| ==> !OccursAt(s, pat, i)
    decreases |s| - from
  {
    if OccursAt(s, pat, from) then Some(from)
    else if from == |s| then None
    else FindFrom(s, pat, from + 1)
  }

  /** `str::find`: the index of the first occurrence of `pat` in `s`. */
  function Find(s: string, pat: string): (r: Option<nat>)
    ensures r.Some? ==> OccursAt(s, pat, r.value) && forall i :: 0 <= i < r.value ==> !OccursAt(s, pat, i)
    ensures r.None? ==> forall i :: 0 <= i <= |s| ==> !OccursAt(s, pat, i)
  {
    FindFrom(s, pat, 0)
  }

  /** The first occurrence of `pat` in `s` is at index `i`. */
  predicate FirstAt(s: string, pat: string, i: nat) {
    OccursAt(s, pat, i) && forall j :: 0 <= j < i ==> !OccursAt(s, pat, j)
  }

  /** `str::find` returns exactly the index of the first occurrence. */
  lemma FindIsFirstAt(s: string, pat: string)
    ensures forall i: nat {:trigger FirstAt(s, pat, i)} :: FirstAt(s, pat, i) <==> Find(s, pat) == Some(i)
  {
    forall i: nat | FirstAt(s, pat, i) ensures Find(s, pat) == Some(i) {
      assert i <= |s|;
    }
  }

  /** `str::contains`. */
  predicate Contains(s: string, pat: string) {
    Find(s, pat).Some?
  }

  /** The index of the first `c` in `s`, if any. */
  function IndexOf(s: string, c: char): (r: Option<nat>)
    ensures r.Some? ==> r.value < |s| && s[r.value] == c && c !in s[..r.value]
    ensures r.None? <==> c !in s
  {
    if c !in s then None
    else
      var k := FirstIndex(s, c);
      assert c !in s[..k] by {
        forall i | 0 <= i < k ensures s[..k][i] != c { assert s[..k][i] == s[i]; }
      }
      Some(k)
  }

  /** `str::find` on a one-character pattern finds the first index of that
      character. */
  lemma FindChar(s: string, c: char)
    ensures Find(s, [c]) == IndexOf(s, c)
  {
    if c in s {
      var k :| 0 <= k < |s| && s[k] == c;
      assert OccursAt(s, [c], k);
    }
    if Find(s, [c]).Some? {
      var f := Find(s, [c]).value;
      forall i | 0 <= i < f ensures s[i] != c {
        assert !OccursAt(s, [c], i);
        assert s[i..i + 1] == [s[i]];
      }
      assert s[f..f + 1] == [s[f]];
    } else {
      forall i | 0 <= i < |s| ensures s[i] != c {
        assert !OccursAt(s, [c], i);
        assert s[i..i + 1] == [s[i]];
      }
    }
  }

  /** `str::split` on a single-character separator: the pieces between
      separators, so `n` separators give `n + 1` pieces. */
  function Split(s: string, sep: char): (r: seq<string>)
    ensures |r| > 0
    decreases |s|
  {
    if sep !in s then [s]
    else
      var k := FirstIndex(s, sep);
      [s[..k]] + Split(s[k + 1..], sep)
  }

  /** No piece of a split holds the separator. */
  lemma {:induction false} SplitPiecesFree(s: string, sep: char)
    ensures forall k :: 0 <= k < |Split(s, sep)| ==> sep !in Split(s, sep)[k]
    decreases |s|
  {
    if sep in s {
      var k := FirstIndex(s, sep);
      SplitPiecesFree(s[k + 1..], sep);
      assert sep !in s[..k];
    }
  }

  /** The index of the first `c` in `s`. */
  function FirstIndex(s: string, c: char): (k: nat)
    requires c in s
    ensures k < |s| && s[k] == c
    ensures forall i :: 0 <= i < k ==> s[i] != c
  {
    if s[0] == c then 0
    else
      assert c in s[1..] by { var i :| 0 <= i < |s| && s[i] == c; assert s[1..][i - 1] == c; }
      1 + FirstIndex(s[1..], c)
  }

  /** The pieces joined with `sep` in between. */
  function Join(parts: seq<string>, sep: string): string {
    if |parts| == 0 then ""
    else if |parts| == 1 then parts[0]
    else parts[0] + sep + Join(parts[1..], sep)
  }

  /** Joining the pieces of a split with the separator gives back the input. */
  lemma {:induction false} JoinSplit(s: string, sep: char)
    ensures Join(Split(s, sep), [sep]) == s
    decreases |s|
  {
    if sep in s {
      var k := FirstIndex(s, sep);
      var pre, post := s[..k], s[k + 1..];
      SplitAt(s, sep, k, pre, post);
      JoinSplit(post, sep);
      JoinCons(pre, Split(post, sep), [sep], Split(s, sep));
      assert s == pre + [sep] + post;
    }
  }

  /** Joining a piece in front of a non-empty list of pieces. */
  lemma JoinCons(first: string, rest: seq<string>, sep: string, parts: seq<string>)
    requires |rest| > 0 && parts == [first] + rest
    ensures Join(parts, sep) == first + sep + Join(rest, sep)
  {
    assert parts[1..] == rest;
  }

  /** A piece that holds no separator, followed by the separator, splits off
      as the first piece. */
  lemma SplitCons(pre: string, sep: char, rest: string)
    requires sep !in pre
    ensures Split(pre + [sep] + rest, sep) == [pre] + Split(rest, sep)
  {
    var s := pre + [sep] + rest;
    assert s[|pre|] == sep;
    var k := FirstIndex(s, sep);
    assert s[..|pre|] == pre;
    assert s[k + 1..] == rest;
  }

  /** A separator at `k` with none before it splits off `s[..k]`. */
  lemma SplitAt(s: string, sep: char, k: nat, pre: string, post: string)
    requires k < |s| && s[k] == sep
    requires forall i :: 0 <= i < k ==> s[i] != sep
    requires pre == s[..k] && post == s[k + 1..]
    ensures Split(s, sep) == [pre] + Split(post, sep)
  {
    assert s[k] in s;
    assert FirstIndex(s, sep) == k;
  }

  /** The same, for the text from `from` on. */
  lemma SplitAtFrom(s: string, sep: char, from: nat, k: nat, pre: string, post: string)
    requires from <= k < |s| && s[k] == sep
    requires forall i :: from <= i < k ==> s[i] != sep
    requires pre == s[from..k] && post == s[k + 1..]
    ensures Split(s[from..], sep) == [pre] + Split(post, sep)
  {
    var u := s[from..];
    assert u[..k - from] == pre;
    assert u[k - from + 1..] == post;
    SplitAt(u, sep, k - from, pre, post);
  }

  /** `str::repeat` on a one-character string. */
  function Repeat(c: char, n: nat): (r: string)
    ensures |r| == n
    ensures forall i :: 0 <= i < |r| ==> r[i] == c
  {
    if n == 0 then "" else [c] + Repeat(c, n - 1)
  }

  /** The characters `str::trim` removes at either end: ASCII white space
      (tab, line feed, vertical tab, form feed, carriage return, space). */
  predicate IsTrimSpace(c: char) {
    c == ' ' || '\t' <= c <= '\r'
  }

  /** The first index at or after `i` whose character is not white space,
      or the length of the text. */
  function TrimFrom(s: string, i: nat): (k: nat)
    requires i <= |s|
    ensures i <= k <= |s|
    ensures forall j :: i <= j < k ==> IsTrimSpace(s[j])
    ensures k < |s| ==> !IsTrimSpace(s[k])
    decreases |s| - i
  {
    if i == |s| || !IsTrimSpace(s[i]) then i else TrimFrom(s, i + 1)
  }

  /** The end of the text once the white space before `j`, down to `lo`, is
      cut off. */
  function TrimTo(s: string, lo: nat, j: nat): (k: nat)
    requires lo <= j <= |s|
    ensures lo <= k <= j
    ensures forall i :: k <= i < j ==> IsTrimSpace(s[i])
    ensures k > lo ==> !IsTrimSpace(s[k - 1])
    decreases j
  {
    if j == lo || !IsTrimSpace(s[j - 1]) then j else TrimTo(s, lo, j - 1)
  }

  /** `str::trim`: the longest middle part that neither starts nor ends with
      white space; all that is cut off on either side is white space. */
  function Trim(s: string): (r: string)
    ensures TrimFrom(s, 0) + |r| <= |s| && r == s[TrimFrom(s, 0)..TrimFrom(s, 0) + |r|]
    ensures forall i :: TrimFrom(s, 0) + |r| <= i < |s| ==> IsTrimSpace(s[i])
    ensures |r| > 0 ==> !IsTrimSpace(r[0]) && !IsTrimSpace(r[|r| - 1])
    ensures r == [] <==> forall i :: 0 <= i < |s| ==> IsTrimSpace(s[i])
  {
    var lo := TrimFrom(s, 0);
    var hi := TrimTo(s, lo, |s|);
    assert lo < hi ==> s[lo..hi][0] == s[lo] && s[lo..hi][hi - lo - 1] == s[hi - 1];
    s[lo..hi]
  }
}
