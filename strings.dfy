/** The Python string operations the search engine relies on: `str.strip()`,
    `str.lower()`, the `in` substring test and `str.endswith`, together with
    the "fragment followed by one space" accumulation the extractor uses. */
module Strings {

  /** Python's `str.isspace()` for one character: exactly the 29 code points
      that `str.strip()` with no argument removes. */
  predicate IsSpace(c: char) {
    var n := c as int;
    || 9 <= n <= 13
    || 28 <= n <= 32
    || n == 0x85 || n == 0xA0 || n == 0x1680
    || 0x2000 <= n <= 0x200A
    || n == 0x2028 || n == 0x2029 || n == 0x202F || n == 0x205F || n == 0x3000
  }

  predicate AllSpace(s: string) {
    forall k :: 0 <= k < |s| ==> IsSpace(s[k])
  }

  /** No leading and no trailing whitespace. */
  predicate IsStripped(s: string) {
    s == [] || (!IsSpace(s[0]) && !IsSpace(s[|s| - 1]))
  }

  /** Python's `s.strip()`: leading and trailing whitespace removed. */
  function Strip(s: string): (r: string)
    ensures IsStripped(r)
    ensures |r| <= |s|
    decreases |s|
  {
    if s != [] && IsSpace(s[0]) then Strip(s[1..])
    else if s != [] && IsSpace(s[|s| - 1]) then Strip(s[..|s| - 1])
    else s
  }

  /** `Strip` removes exactly the surrounding whitespace: a stripped string
      padded on both sides with whitespace is given back unchanged. */
  lemma StripPadded(w: string, x: string, v: string)
    requires AllSpace(w) && AllSpace(v) && IsStripped(x)
    ensures Strip(w + x + v) == x
  {
    assert w + x + v == w + (x + v);
    StripLeading(w, x + v);
    StripTrailing(x, v);
  }

  /** Leading whitespace does not change the result of `Strip`. */
  lemma {:induction false} StripLeading(w: string, s: string)
    requires AllSpace(w)
    ensures Strip(w + s) == Strip(s)
  {
    if w != [] {
      assert (w + s)[0] == w[0];
      assert (w + s)[1..] == w[1..] + s;
      StripLeading(w[1..], s);
    } else {
      assert w + s == s;
    }
  }

  /** A stripped string followed by whitespace strips back to itself. */
  lemma {:induction false} StripTrailing(x: string, v: string)
    requires AllSpace(v) && IsStripped(x)
    ensures Strip(x + v) == x
    decreases |v|
  {
    var s := x + v;
    if v == [] {
      assert s == x;
    } else if x != [] {
      assert s[0] == x[0];
      assert s[|s| - 1] == v[|v| - 1];
      assert s[..|s| - 1] == x + v[..|v| - 1];
      StripTrailing(x, v[..|v| - 1]);
    } else {
      assert s == v;
      assert s[1..] == [] + v[1..];
      StripTrailing([], v[1..]);
    }
  }

  /** `Strip` gives "" exactly for whitespace-only strings. */
  lemma {:induction false} StripBlank(s: string)
    ensures Strip(s) == [] <==> AllSpace(s)
    decreases |s|
  {
    if s != [] && IsSpace(s[0]) {
      StripBlank(s[1..]);
      assert AllSpace(s) <==> AllSpace(s[1..]) by {
        assert forall k :: 1 <= k < |s| ==> s[k] == s[1..][k - 1];
      }
    } else if s != [] && IsSpace(s[|s| - 1]) {
      StripBlank(s[..|s| - 1]);
      assert !IsSpace(s[0]);
      assert s[..|s| - 1][0] == s[0];
    }
  }

  lemma StripStripped(x: string)
    requires IsStripped(x)
    ensures Strip(x) == x
  {
    StripPadded([], x, []);
    assert [] + x + [] == x;
  }

  /** Each fragment followed by one space, as `text += fragment + " "` builds it. */
  function Spaced(fs: seq<string>): string {
    if fs == [] then "" else Spaced(fs[..|fs| - 1]) + fs[|fs| - 1] + " "
  }

  /** The fragments separated by single spaces: Python's `" ".join(fs)`. */
  function JoinSpace(fs: seq<string>): string {
    if fs == [] then ""
    else if |fs| == 1 then fs[0]
    else JoinSpace(fs[..|fs| - 1]) + " " + fs[|fs| - 1]
  }

  lemma {:induction false} SpacedAppend(a: seq<string>, b: seq<string>)
    ensures Spaced(a + b) == Spaced(a) + Spaced(b)
    decreases |b|
  {
    if b == [] {
      assert a + b == a;
    } else {
      var b' := b[..|b| - 1];
      assert (a + b)[..|a + b| - 1] == a + b';
      SpacedAppend(a, b');
    }
  }

  lemma SpacedSnoc(a: seq<string>, f: string)
    ensures Spaced(a + [f]) == Spaced(a) + f + " "
  {
    assert (a + [f])[..|a|] == a;
  }

  lemma SpacedStep(fs: seq<string>, i: nat)
    requires i < |fs|
    ensures Spaced(fs[..i + 1]) == Spaced(fs[..i]) + fs[i] + " "
  {
    assert fs[..i + 1][..i] == fs[..i];
  }

  /** Fragments that are non-empty and stripped, accumulated with a space after
      each and then stripped, give the same string as joining them with single
      spaces. */
  lemma {:induction false} StripSpacedIsJoin(fs: seq<string>)
    requires forall k :: 0 <= k < |fs| ==> fs[k] != "" && IsStripped(fs[k])
    ensures Strip(Spaced(fs)) == JoinSpace(fs)
  {
    JoinShape(fs);
    if fs == [] {
    } else {
      assert Spaced(fs) == [] + JoinSpace(fs) + " " by { SpacedIsJoin(fs); }
      StripPadded([], JoinSpace(fs), " ");
    }
  }

  lemma {:induction false} SpacedIsJoin(fs: seq<string>)
    requires fs != []
    ensures Spaced(fs) == JoinSpace(fs) + " "
  {
    if |fs| == 1 {
      assert fs[..0] == [];
    } else {
      SpacedIsJoin(fs[..|fs| - 1]);
    }
  }

  /** Joining non-empty stripped fragments gives a stripped string that is
      empty only when there are no fragments. */
  lemma {:induction false} JoinShape(fs: seq<string>)
    requires forall k :: 0 <= k < |fs| ==> fs[k] != "" && IsStripped(fs[k])
    ensures IsStripped(JoinSpace(fs))
    ensures JoinSpace(fs) == "" <==> fs == []
    ensures fs != [] ==> |JoinSpace(fs)| >= |fs[0]| && JoinSpace(fs)[..|fs[0]|] == fs[0]
  {
    if |fs| > 1 {
      var front := fs[..|fs| - 1];
      JoinShape(front);
      var j := JoinSpace(front) + " " + fs[|fs| - 1];
      assert j[0] == JoinSpace(front)[0];
      assert j[|j| - 1] == fs[|fs| - 1][|fs[|fs| - 1]| - 1];
      assert front[0] == fs[0];
    }
  }

  function LowerChar(c: char): char {
    if 'A' <= c <= 'Z' then (c as int + 32) as char else c
  }

  /** `str.lower()`, restricted to the ASCII letters. */
  function Lower(s: string): (r: string)
    ensures |r| == |s|
    ensures forall k :: 0 <= k < |s| ==> r[k] == LowerChar(s[k])
  {
    if s == [] then [] else [LowerChar(s[0])] + Lower(s[1..])
  }

  /** Lowercasing commutes with taking the last `n` characters. */
  lemma {:induction false} LowerSuffix(s: string, n: nat)
    ensures n <= |s| ==> Lower(s)[|s| - n..] == Lower(s[|s| - n..])
  {
    if n == |s| {
      assert s[|s| - n..] == s;
    } else if n < |s| {
      LowerSuffix(s[1..], n);
      assert s[1..][|s| - 1 - n..] == s[|s| - n..];
    }
  }

  lemma LowerIdempotent(s: string)
    ensures Lower(Lower(s)) == Lower(s)
  {
  }

  /** Python's `needle in hay` on strings. */
  predicate Contains(hay: string, needle: string)
    ensures Contains(hay, needle) ==> |needle| <= |hay|
    ensures needle == [] ==> Contains(hay, needle)
    ensures |needle| == |hay| ==> (Contains(hay, needle) <==> hay == needle)
  {
    |needle| <= |hay| && (hay[..|needle|] == needle || Contains(hay[1..], needle))
  }

  /** `needle` occurs in `hay` starting at index `i`. */
  predicate OccursAt(hay: string, needle: string, i: int) {
    0 <= i && i + |needle| <= |hay| && hay[i..i + |needle|] == needle
  }

  /** `Contains` holds exactly when the needle occurs at some position of the
      haystack. */
  lemma {:induction false} ContainsIff(hay: string, needle: string)
    ensures Contains(hay, needle) <==> exists i :: OccursAt(hay, needle, i)
    decreases |hay|
  {
    if needle == [] {
      assert OccursAt(hay, needle, 0);
    } else if |needle| <= |hay| {
      ContainsIff(hay[1..], needle);
      if Contains(hay, needle) {
        if hay[..|needle|] == needle {
          assert OccursAt(hay, needle, 0);
        } else {
          var i :| OccursAt(hay[1..], needle, i);
          assert hay[i + 1..i + 1 + |needle|] == hay[1..][i..i + |needle|];
          assert OccursAt(hay, needle, i + 1);
        }
      } else {
        forall i | 0 <= i && i + |needle| <= |hay|
          ensures !OccursAt(hay, needle, i)
        {
          if i == 0 {
            assert hay[..|needle|] == hay[i..i + |needle|];
          } else {
            var tail := hay[1..];
            assert tail[i - 1..i - 1 + |needle|] == hay[i..i + |needle|];
            assert !OccursAt(tail, needle, i - 1);
          }
        }
      }
    }
  }

  /** Python's `s.endswith(suffix)`. */
  predicate EndsWith(s: string, suffix: string)
    ensures suffix == [] ==> EndsWith(s, suffix)
    ensures EndsWith(s, suffix) ==> |suffix| <= |s| && s == s[..|s| - |suffix|] + suffix
  {
    |suffix| <= |s| && s[|s| - |suffix|..] == suffix
  }
}
