// String operations the assistant relies on: trimming and lower-casing a
// transcript, substring containment (`includes`), the last `/`-segment of a
// URL (`split('/').pop()`) and the part of a file name before `.html`
// (`split('.html')[0]`). Strings are sequences of characters; only ASCII
// letters are case-folded and only ASCII whitespace is trimmed.
module Text {

  /** The ASCII whitespace characters that `trim` removes. */
  predicate IsSpace(c: char) {
    c == ' ' || c == '\t' || c == '\n' || c == '\r' || c == '\U{000B}' || c == '\U{000C}'
  }

  predicate IsUpper(c: char) {
    'A' <= c <= 'Z'
  }

  function LowerChar(c: char): (d: char)
    ensures !IsUpper(d)
    ensures IsSpace(d) <==> IsSpace(c)
    ensures IsUpper(c) ==> d as int == c as int + 32
    ensures !IsUpper(c) ==> d == c
  {
    if IsUpper(c) then (c as int + 32) as char else c
  }

  /** `toLowerCase` over ASCII: every character folded, nothing added or dropped. */
  function Lower(s: string): (r: string)
    ensures |r| == |s|
    ensures forall i :: 0 <= i < |s| ==> r[i] == LowerChar(s[i])
  {
    if s == [] then [] else [LowerChar(s[0])] + Lower(s[1..])
  }

  /** Leading whitespace removed: a suffix of `s` that does not start with a space. */
  function TrimStart(s: string): (r: string)
    ensures |r| <= |s| && r == s[|s| - |r|..]
    ensures forall i :: 0 <= i < |s| - |r| ==> IsSpace(s[i])
    ensures r == [] || !IsSpace(r[0])
  {
    if s != [] && IsSpace(s[0]) then TrimStart(s[1..]) else s
  }

  /** Trailing whitespace removed: a prefix of `s` that does not end with a space. */
  function TrimEnd(s: string): (r: string)
    ensures |r| <= |s| && r == s[..|r|]
    ensures forall i :: |r| <= i < |s| ==> IsSpace(s[i])
    ensures r == [] || !IsSpace(r[|r| - 1])
  {
    if s != [] && IsSpace(s[|s| - 1]) then TrimEnd(s[..|s| - 1]) else s
  }

  /** `trim`: whitespace removed at both ends, and nothing else. */
  function Trim(s: string): (r: string)
    ensures r == [] || (!IsSpace(r[0]) && !IsSpace(r[|r| - 1]))
    ensures Contains(s, r)
    ensures SliceInSpace(s, r)
  {
    var t := TrimStart(s);
    var r := TrimEnd(t);
    SliceSpan(s, t, r);
    r
  }

  /** Every character of `s` outside the slice `s[i..i + n]` is whitespace. */
  predicate OnlySpaceOutside(s: string, i: int, n: int) {
    && 0 <= i && 0 <= n && i + n <= |s|
    && forall j :: 0 <= j < |s| && !(i <= j < i + n) ==> IsSpace(s[j])
  }

  /** `r` is a slice of `s`, and only whitespace lies outside that slice. */
  ghost predicate SliceInSpace(s: string, r: string) {
    exists i :: OnlySpaceOutside(s, i, |r|) && r == s[i..i + |r|]
  }

  /**
   * A suffix `t` of `s` after whitespace, then a prefix `r` of `t` before
   * whitespace: `r` is one slice of `s`, and only whitespace lies outside it.
   */
  lemma SliceSpan(s: string, t: string, r: string)
    requires |t| <= |s| && t == s[|s| - |t|..]
    requires forall i :: 0 <= i < |s| - |t| ==> IsSpace(s[i])
    requires t == [] || !IsSpace(t[0])
    requires |r| <= |t| && r == t[..|r|]
    requires forall i :: |r| <= i < |t| ==> IsSpace(t[i])
    requires r == [] || !IsSpace(r[|r| - 1])
    ensures r == [] || (!IsSpace(r[0]) && !IsSpace(r[|r| - 1]))
    ensures Contains(s, r)
    ensures SliceInSpace(s, r)
  {
    var i := |s| - |t|;
    assert r != [] ==> r[0] == t[0];
    forall j | 0 <= j < |s| && !(i <= j < i + |r|)
      ensures IsSpace(s[j])
    {
      if j >= i + |r| {
        assert s[j] == t[j - i];
      }
    }
    assert s[i..i + |r|] == t[..|r|];
    assert OnlySpaceOutside(s, i, |r|);
    OccurrenceContains(s, r, i);
  }

  /**
   * Two slices of `s` with only whitespace around them and no whitespace at
   * their own ends are the same slice.
   */
  lemma SliceInSpaceUnique(s: string, r1: string, r2: string)
    requires SliceInSpace(s, r1) && (r1 == [] || (!IsSpace(r1[0]) && !IsSpace(r1[|r1| - 1])))
    requires SliceInSpace(s, r2) && (r2 == [] || (!IsSpace(r2[0]) && !IsSpace(r2[|r2| - 1])))
    ensures r1 == r2
  {
    var i :| OnlySpaceOutside(s, i, |r1|) && r1 == s[i..i + |r1|];
    var k :| OnlySpaceOutside(s, k, |r2|) && r2 == s[k..k + |r2|];
    if r1 != [] && r2 != [] {
      assert s[i] == r1[0] && s[k] == r2[0];
      assert s[i + |r1| - 1] == r1[|r1| - 1] && s[k + |r2| - 1] == r2[|r2| - 1];
      assert i == k;
      assert i + |r1| == k + |r2|;
    }
  }

  /** `Trim` is the only such slice: its contract determines it. */
  lemma TrimUnique(s: string, r: string)
    requires SliceInSpace(s, r)
    requires r == [] || (!IsSpace(r[0]) && !IsSpace(r[|r| - 1]))
    ensures r == Trim(s)
  {
    SliceInSpaceUnique(s, r, Trim(s));
  }

  /** `p` occurs in `s` starting at index `i`. */
  predicate OccursAt(s: string, p: string, i: int) {
    0 <= i && i + |p| <= |s| && s[i..i + |p|] == p
  }

  /** `s.includes(p)`, computed by sliding `p` along `s`. */
  function Contains(s: string, p: string): (r: bool)
    ensures r <==> exists i :: OccursAt(s, p, i)
  {
    if |p| > |s| then false
    else if s[..|p|] == p then (assert OccursAt(s, p, 0); true)
    else
      var r := Contains(s[1..], p);
      assert forall i :: OccursAt(s[1..], p, i) ==> OccursAt(s, p, i + 1) by {
        forall i | OccursAt(s[1..], p, i) ensures OccursAt(s, p, i + 1) {
          OccursShift(s, p, i);
        }
      }
      assert forall i :: OccursAt(s, p, i) ==> i == 0 || OccursAt(s[1..], p, i - 1) by {
        forall i | OccursAt(s, p, i) && i != 0 ensures OccursAt(s[1..], p, i - 1) {
          OccursShift(s, p, i - 1);
        }
      }
      r
  }

  /** An occurrence at a known index makes `Contains` hold. */
  lemma OccurrenceContains(s: string, p: string, i: int)
    requires OccursAt(s, p, i)
    ensures Contains(s, p)
  {
  }

  /** A string lacking some character of `p` cannot contain `p`. */
  lemma LacksChar(s: string, p: string, j: nat)
    requires j < |p| && p[j] !in s
    ensures !Contains(s, p)
  {
  }

  /** A string cannot contain a longer one. */
  lemma TooLong(s: string, p: string)
    requires |s| < |p|
    ensures !Contains(s, p)
  {
  }

  lemma OccursShift(s: string, p: string, i: int)
    requires s != [] && 0 <= i
    ensures OccursAt(s[1..], p, i) <==> OccursAt(s, p, i + 1)
  {
    if i + 1 + |p| <= |s| {
      assert s[1..][i..i + |p|] == s[i + 1..i + 1 + |p|];
    }
  }

  /**
   * `url.split('/').pop()`: the text after the last `/`, or the whole
   * string when it has none.
   */
  function LastSegment(url: string): (r: string)
    ensures |r| <= |url| && r == url[|url| - |r|..]
    ensures '/' !in r
    ensures |r| == |url| || url[|url| - |r| - 1] == '/'
  {
    if url == [] || url[|url| - 1] == '/' then []
    else LastSegment(url[..|url| - 1]) + [url[|url| - 1]]
  }

  /**
   * `page.split('.html')[0]`: the text before the first occurrence of
   * `.html`, or the whole string when it does not occur.
   */
  function BeforeHtml(page: string): (r: string)
    ensures |r| <= |page| && r == page[..|r|]
    ensures forall i :: 0 <= i < |r| ==> !OccursAt(page, ".html", i)
    ensures OccursAt(page, ".html", |r|) || (r == page && !Contains(page, ".html"))
  {
    if OccursAt(page, ".html", 0) then []
    else if page == [] then []
    else
      var rest := BeforeHtml(page[1..]);
      forall i | 0 <= i
        ensures OccursAt(page[1..], ".html", i) <==> OccursAt(page, ".html", i + 1)
      {
        OccursShift(page, ".html", i);
      }
      forall i | 1 <= i ensures OccursAt(page, ".html", i) <==> OccursAt(page[1..], ".html", i - 1) {
        OccursShift(page, ".html", i - 1);
      }
      [page[0]] + rest
  }

  /** Lower-casing a string without its last character drops the last folded one. */
  lemma {:induction false} LowerInit(s: string)
    requires s != []
    ensures Lower(s[..|s| - 1]) == Lower(s)[..|s| - 1]
    decreases |s|
  {
    if |s| > 1 {
      var t := s[1..];
      LowerInit(t);
      assert s[..|s| - 1][1..] == t[..|t| - 1];
      calc {
        Lower(s[..|s| - 1]);
        [LowerChar(s[0])] + Lower(t[..|t| - 1]);
        [LowerChar(s[0])] + Lower(t)[..|t| - 1];
        ([LowerChar(s[0])] + Lower(t))[..|s| - 1];
        Lower(s)[..|s| - 1];
      }
    }
  }

  lemma {:induction false} TrimStartLower(s: string)
    ensures TrimStart(Lower(s)) == Lower(TrimStart(s))
  {
    var l := Lower(s);
    if s != [] && IsSpace(s[0]) {
      assert IsSpace(l[0]);
      assert l[1..] == Lower(s[1..]);
      TrimStartLower(s[1..]);
      calc {
        TrimStart(l);
        TrimStart(l[1..]);
        TrimStart(Lower(s[1..]));
        Lower(TrimStart(s[1..]));
      }
    } else {
      assert l == [] || !IsSpace(l[0]);
    }
  }

  lemma {:induction false} TrimEndLower(s: string)
    ensures TrimEnd(Lower(s)) == Lower(TrimEnd(s))
  {
    if s != [] && IsSpace(s[|s| - 1]) {
      LowerInit(s);
      TrimEndLower(s[..|s| - 1]);
    }
  }

  /** Trimming and lower-casing commute, so their order in the source does not matter. */
  lemma LowerTrimCommute(s: string)
    ensures Lower(Trim(s)) == Trim(Lower(s))
  {
    TrimStartLower(s);
    TrimEndLower(TrimStart(s));
  }
}
