/** The few Python `str` operations the importer relies on: `isspace`,
    `strip`, slicing with non-negative bounds, `join` and `split`. */
module PyStr {

  function Min(a: int, b: int): int {
    if a <= b then a else b
  }

  /** Python's `str.isspace` for one character (the characters `str.strip()`
      removes when called without arguments). */
  predicate IsSpace(c: char) {
    || ('\t' <= c <= '\r')
    || ('\U{1C}' <= c <= ' ')
    || c == '\U{85}'
    || c == '\U{A0}'
    || c == '\U{1680}'
    || ('\U{2000}' <= c <= '\U{200A}')
    || c == '\U{2028}'
    || c == '\U{2029}'
    || c == '\U{202F}'
    || c == '\U{205F}'
    || c == '\U{3000}'
  }

  predicate AllSpace(s: string) {
    forall k :: 0 <= k < |s| ==> IsSpace(s[k])
  }

  /** Neither end of `s` is whitespace. */
  predicate Trimmed(s: string) {
    |s| == 0 || (!IsSpace(s[0]) && !IsSpace(s[|s| - 1]))
  }

  /** `r` is what is left of `s` once the whitespace around it is removed:
      `s` is whitespace, then `r`, then whitespace, and `r` is trimmed. */
  ghost predicate StripsTo(s: string, r: string) {
    && Trimmed(r)
    && exists i :: 0 <= i <= |s| - |r| && s[i..i + |r|] == r && AllSpace(s[..i]) && AllSpace(s[i + |r|..])
  }

  /** Number of whitespace characters at the start of `s`. */
  function LeadingSpace(s: string): (n: nat)
    ensures n <= |s|
  {
    if |s| == 0 || !IsSpace(s[0]) then 0
    else 1 + LeadingSpace(s[1..])
  }

  /** `LeadingSpace` counts whitespace and stops at the first character
      that is not. */
  lemma {:induction false} LeadingSpaceSpan(s: string)
    ensures forall k :: 0 <= k < LeadingSpace(s) ==> IsSpace(s[k])
    ensures LeadingSpace(s) < |s| ==> !IsSpace(s[LeadingSpace(s)])
  {
    if |s| > 0 && IsSpace(s[0]) {
      LeadingSpaceSpan(s[1..]);
      forall k | 1 <= k < LeadingSpace(s)
        ensures IsSpace(s[k])
      {
        assert s[k] == s[1..][k - 1];
      }
    }
  }

  /** Number of whitespace characters at the end of `s`. */
  function TrailingSpace(s: string): (n: nat)
    ensures n <= |s|
  {
    if |s| == 0 || !IsSpace(s[|s| - 1]) then 0
    else 1 + TrailingSpace(s[..|s| - 1])
  }

  /** `TrailingSpace` counts whitespace backwards from the end and stops at
      the last character that is not. */
  lemma {:induction false} TrailingSpaceSpan(s: string)
    ensures forall k :: |s| - TrailingSpace(s) <= k < |s| ==> IsSpace(s[k])
    ensures TrailingSpace(s) < |s| ==> !IsSpace(s[|s| - 1 - TrailingSpace(s)])
  {
    if |s| > 0 && IsSpace(s[|s| - 1]) {
      var t := s[..|s| - 1];
      TrailingSpaceSpan(t);
      forall k | |s| - TrailingSpace(s) <= k < |s| - 1
        ensures IsSpace(s[k])
      {
        assert s[k] == t[k];
      }
    }
  }

  /** Python's `str.strip()` with no arguments. */
  function Strip(s: string): (r: string)
    ensures Trimmed(r)
    ensures |r| <= |s|
  {
    LeadingSpaceSpan(s);
    TrailingSpaceSpan(s);
    var i := LeadingSpace(s);
    if i == |s| then ""
    else
      var j := |s| - TrailingSpace(s);
      assert i < j;
      s[i..j]
  }

  /** `Strip` removes exactly the surrounding whitespace. */
  lemma StripMeaning(s: string)
    ensures StripsTo(s, Strip(s))
  {
    LeadingSpaceSpan(s);
    TrailingSpaceSpan(s);
    var i := LeadingSpace(s);
    if i == |s| {
      assert s[i..i] == "" && s[..i] == s && s[i..] == "";
      assert AllSpace(s[..i]);
    } else {
      var j := |s| - TrailingSpace(s);
      var r := s[i..j];
      assert s[i..i + |r|] == r;
      assert AllSpace(s[..i]) by {
        assert forall k :: 0 <= k < i ==> s[..i][k] == s[k];
      }
      assert AllSpace(s[i + |r|..]) by {
        assert forall k :: 0 <= k < |s| - j ==> s[j..][k] == s[j + k];
      }
    }
  }

  /** The whitespace prefix is the longest one: any `i` that ends a
      whitespace prefix at a non-space character is `LeadingSpace(s)`. */
  lemma {:induction false} LeadingSpaceUnique(s: string, i: nat)
    requires i <= |s|
    requires forall k :: 0 <= k < i ==> IsSpace(s[k])
    requires i < |s| ==> !IsSpace(s[i])
    ensures i == LeadingSpace(s)
  {
    if i > 0 {
      assert IsSpace(s[0]);
      LeadingSpaceUnique(s[1..], i - 1);
    }
  }

  /** The mirror image of `LeadingSpaceUnique` for the whitespace suffix. */
  lemma {:induction false} TrailingSpaceUnique(s: string, i: nat)
    requires i <= |s|
    requires forall k :: |s| - i <= k < |s| ==> IsSpace(s[k])
    requires i < |s| ==> !IsSpace(s[|s| - 1 - i])
    ensures i == TrailingSpace(s)
  {
    if i > 0 {
      assert IsSpace(s[|s| - 1]);
      TrailingSpaceUnique(s[..|s| - 1], i - 1);
    }
  }

  /** `Strip` keeps exactly the part between a whitespace prefix and a
      whitespace suffix whose ends are not whitespace. */
  lemma StripBetween(s: string, i: nat, e: nat)
    requires i <= e <= |s|
    requires forall k :: 0 <= k < i ==> IsSpace(s[k])
    requires forall k :: e <= k < |s| ==> IsSpace(s[k])
    requires i < e ==> !IsSpace(s[i]) && !IsSpace(s[e - 1])
    ensures Strip(s) == s[i..e]
  {
    if i == e {
      LeadingSpaceUnique(s, |s|);
    } else {
      LeadingSpaceUnique(s, i);
      TrailingSpaceUnique(s, |s| - e);
    }
  }

  /** A whitespace slice, read back in terms of the indices of `s`. */
  lemma AllSpaceBetween(s: string, i: nat, e: nat)
    requires i <= e <= |s|
    requires AllSpace(s[i..e])
    ensures forall k :: i <= k < e ==> IsSpace(s[k])
  {
    forall k | i <= k < e
      ensures IsSpace(s[k])
    {
      assert s[i..e][k - i] == s[k];
    }
  }

  /** `r` preceded by `i` whitespace characters and followed by whitespace
      is what `s` strips to. */
  lemma StripUniqueAt(s: string, r: string, i: nat)
    requires Trimmed(r)
    requires i + |r| <= |s| && s[i..i + |r|] == r
    requires AllSpace(s[..i]) && AllSpace(s[i + |r|..])
    ensures r == Strip(s)
  {
    var e := i + |r|;
    assert s[..i] == s[0..i] && s[e..] == s[e..|s|];
    AllSpaceBetween(s, 0, i);
    AllSpaceBetween(s, e, |s|);
    if i < e {
      assert s[i] == r[0] && s[e - 1] == r[|r| - 1];
    }
    StripBetween(s, i, e);
  }

  /** Removing whitespace is unique: anything `s` strips to is `Strip(s)`. */
  lemma StripUnique(s: string, r: string)
    requires StripsTo(s, r)
    ensures r == Strip(s)
  {
    var i :| 0 <= i <= |s| - |r| && s[i..i + |r|] == r && AllSpace(s[..i]) && AllSpace(s[i + |r|..]);
    StripUniqueAt(s, r, i);
  }

  /** Stripping twice is stripping once. */
  lemma StripIdempotent(s: string)
    ensures Strip(Strip(s)) == Strip(s)
  {
    var t := Strip(s);
    assert t[0..0 + |t|] == t && t[..0] == "" && t[0 + |t|..] == "";
    assert StripsTo(t, t);
    StripUnique(t, t);
  }

  /** Python's `s[a:b]` for non-negative `a` and `b`: both bounds are
      clamped to `len(s)` and the slice is empty, never an error, when
      they cross. */
  function Slice(s: string, a: nat, b: nat): string {
    var lo := Min(a, |s|);
    var hi := Min(b, |s|);
    if hi <= lo then "" else s[lo..hi]
  }

  /** Python's slice on each side of the bounds: the ordinary slice when
      both bounds are in range, the tail when only the end overshoots,
      nothing when the bounds cross or the start overshoots. */
  lemma SliceMeaning(s: string, a: nat, b: nat)
    ensures a <= b <= |s| ==> Slice(s, a, b) == s[a..b]
    ensures a <= |s| <= b ==> Slice(s, a, b) == s[a..]
    ensures b <= a || |s| <= a ==> Slice(s, a, b) == ""
  {
  }

  /** Python's `sep.join(xs)`. */
  function Join(sep: string, xs: seq<string>): string {
    if |xs| == 0 then ""
    else if |xs| == 1 then xs[0]
    else xs[0] + sep + Join(sep, xs[1..])
  }

  /** Python's `s.split(c)` for a one-character separator: always at least
      one piece, no piece holds `c`, and joining the pieces with `c` gives
      `s` back. */
  function Split(c: char, s: string): (r: seq<string>)
    ensures |r| >= 1
    ensures forall k :: 0 <= k < |r| ==> c !in r[k]
    ensures Join([c], r) == s
  {
    if |s| == 0 then [""]
    else
      var rest := Split(c, s[1..]);
      if s[0] == c then
        assert [s[0]] + s[1..] == s;
        [""] + rest
      else
        var r := [[s[0]] + rest[0]] + rest[1..];
        assert forall k :: 1 <= k < |r| ==> r[k] == rest[k];
        assert r[1..] == rest[1..];
        assert [s[0]] + s[1..] == s;
        if |rest| == 1 then r
        else
          assert Join([c], rest) == rest[0] + [c] + Join([c], rest[1..]);
          assert Join([c], r) == [s[0]] + rest[0] + [c] + Join([c], rest[1..]);
          r
  }

  /** If `a + [c] + b == a' + [c] + b'` and neither `a` nor `a'` holds `c`,
      both decompositions are the same. */
  lemma SplitAtFirst(c: char, a: string, b: string, a': string, b': string)
    requires c !in a && c !in a'
    requires a + [c] + b == a' + [c] + b'
    ensures a == a' && b == b'
  {
    var s := a + [c] + b;
    var s' := a' + [c] + b';
    assert s[|a|] == c && s'[|a'|] == c;
    assert forall k :: 0 <= k < |a| ==> s[k] == a[k] && a[k] != c;
    assert forall k :: 0 <= k < |a'| ==> s'[k] == a'[k] && a'[k] != c;
    assert |a| == |a'|;
    assert a == s[..|a|] && a' == (a' + [c] + b')[..|a'|];
    assert b == s[|a| + 1..] && b' == (a' + [c] + b')[|a'| + 1..];
  }

  /** Joined pieces that do not hold the separator contain it exactly when
      there are at least two pieces. */
  lemma JoinHasSeparator(c: char, xs: seq<string>)
    requires |xs| >= 1
    requires forall k :: 0 <= k < |xs| ==> c !in xs[k]
    ensures c in Join([c], xs) <==> |xs| >= 2
  {
    if |xs| >= 2 {
      var j := Join([c], xs);
      assert j == xs[0] + [c] + Join([c], xs[1..]);
      assert j[|xs[0]|] == c;
    }
  }

  /** Joining with a separator none of the pieces contains loses nothing. */
  lemma {:induction false} JoinInjective(c: char, xs: seq<string>, ys: seq<string>)
    requires |xs| >= 1 && |ys| >= 1
    requires forall k :: 0 <= k < |xs| ==> c !in xs[k]
    requires forall k :: 0 <= k < |ys| ==> c !in ys[k]
    requires Join([c], xs) == Join([c], ys)
    ensures xs == ys
  {
    JoinHasSeparator(c, xs);
    JoinHasSeparator(c, ys);
    if |xs| == 1 {
    } else {
      assert Join([c], xs) == xs[0] + [c] + Join([c], xs[1..]);
      assert Join([c], ys) == ys[0] + [c] + Join([c], ys[1..]);
      SplitAtFirst(c, xs[0], Join([c], xs[1..]), ys[0], Join([c], ys[1..]));
      JoinInjective(c, xs[1..], ys[1..]);
      assert xs == [xs[0]] + xs[1..] && ys == [ys[0]] + ys[1..];
    }
  }

  /** `split` undoes `join` when no piece contains the separator. */
  lemma SplitJoin(c: char, xs: seq<string>)
    requires |xs| >= 1
    requires forall k :: 0 <= k < |xs| ==> c !in xs[k]
    ensures Split(c, Join([c], xs)) == xs
  {
    JoinInjective(c, Split(c, Join([c], xs)), xs);
  }
}
