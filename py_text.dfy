/** The Python 2 byte-string operations that read a specifications line:
    `str.isspace` on one byte, `strip()` tested for emptiness, `startswith`,
    `split()` with no separator, and the substring test `needle in hay`. */
module PyText {

  /** Python 2 `isspace` on a byte string character: space, tab, newline,
      vertical tab, form feed and carriage return. */
  predicate IsSpace(c: char) {
    c == ' ' || c == '\t' || c == '\n' || c == '\U{000B}' || c == '\U{000C}' || c == '\r'
  }

  /** `s.strip()` is non-empty (truthy): some character is not whitespace. */
  predicate HasNonSpace(s: string) {
    exists i :: 0 <= i < |s| && !IsSpace(s[i])
  }

  predicate AllSpace(s: string) {
    forall i :: 0 <= i < |s| ==> IsSpace(s[i])
  }

  predicate StartsWith(s: string, prefix: string) {
    |prefix| <= |s| && s[..|prefix|] == prefix
  }

  /** `needle in hay` for strings: needle occurs at some position of hay. */
  predicate Contains(hay: string, needle: string)
    decreases |hay|
  {
    StartsWith(hay, needle) || (hay != [] && Contains(hay[1..], needle))
  }

  /** A field that `split()` can produce: non-empty and free of whitespace. */
  predicate IsToken(t: string) {
    t != [] && forall i :: 0 <= i < |t| ==> !IsSpace(t[i])
  }

  /** Length of the run of non-whitespace characters at the start of s. */
  function TokenEnd(s: string): (n: nat)
    ensures n <= |s|
    ensures forall i :: 0 <= i < n ==> !IsSpace(s[i])
    ensures n < |s| ==> IsSpace(s[n])
  {
    if s == [] || IsSpace(s[0]) then 0 else 1 + TokenEnd(s[1..])
  }

  /** `s.split()`: the maximal runs of non-whitespace characters, in order. */
  function Split(s: string): (tokens: seq<string>)
    ensures forall k :: 0 <= k < |tokens| ==> IsToken(tokens[k])
    decreases |s|
  {
    if s == [] then []
    else if IsSpace(s[0]) then Split(s[1..])
    else
      var n := TokenEnd(s);
      [s[..n]] + Split(s[n..])
  }

  /** The characters of s that are not whitespace, in order. */
  function NonSpace(s: string): string {
    if s == [] then [] else (if IsSpace(s[0]) then [] else [s[0]]) + NonSpace(s[1..])
  }

  function Concat(ts: seq<string>): string {
    if ts == [] then [] else ts[0] + Concat(ts[1..])
  }

  /** Tokens written out with one space between neighbours (`' '.join(ts)`). */
  function Join(ts: seq<string>): string {
    if ts == [] then []
    else if |ts| == 1 then ts[0]
    else ts[0] + " " + Join(ts[1..])
  }

  /** `split()` returns nothing exactly when `strip()` is empty. */
  lemma {:induction false} SplitEmptyIffBlank(s: string)
    ensures Split(s) == [] <==> !HasNonSpace(s)
    decreases |s|
  {
    if s != [] {
      if IsSpace(s[0]) {
        SplitEmptyIffBlank(s[1..]);
        if HasNonSpace(s) {
          var i :| 0 <= i < |s| && !IsSpace(s[i]);
          assert s[1..][i - 1] == s[i];
        }
        if HasNonSpace(s[1..]) {
          var i :| 0 <= i < |s[1..]| && !IsSpace(s[1..][i]);
          assert s[i + 1] == s[1..][i];
        }
      } else {
        assert !IsSpace(s[0]);
      }
    }
  }

  lemma {:induction false} NonSpaceAppend(a: string, b: string)
    ensures NonSpace(a + b) == NonSpace(a) + NonSpace(b)
    decreases |a|
  {
    if a != [] {
      var head := if IsSpace(a[0]) then [] else [a[0]];
      assert (a + b)[0] == a[0];
      assert (a + b)[1..] == a[1..] + b;
      NonSpaceAppend(a[1..], b);
      assert NonSpace(a + b) == head + (NonSpace(a[1..]) + NonSpace(b));
      assert NonSpace(a) == head + NonSpace(a[1..]);
    } else {
      assert a + b == b;
    }
  }

  lemma {:induction false} NonSpaceOfUnspaced(t: string)
    requires forall i :: 0 <= i < |t| ==> !IsSpace(t[i])
    ensures NonSpace(t) == t
    decreases |t|
  {
    if t != [] {
      NonSpaceOfUnspaced(t[1..]);
      assert t == [t[0]] + t[1..];
    }
  }

  /** The fields of `split()`, put back together, are exactly the
      non-whitespace characters of the line: nothing is lost or reordered. */
  lemma {:induction false} SplitKeepsNonSpace(s: string)
    ensures Concat(Split(s)) == NonSpace(s)
    decreases |s|
  {
    if s != [] {
      if IsSpace(s[0]) {
        SplitKeepsNonSpace(s[1..]);
      } else {
        var n := TokenEnd(s);
        assert s == s[..n] + s[n..];
        SplitKeepsNonSpace(s[n..]);
        NonSpaceAppend(s[..n], s[n..]);
        NonSpaceOfUnspaced(s[..n]);
        var ts := Split(s);
        assert ts == [s[..n]] + Split(s[n..]);
        assert ts[1..] == Split(s[n..]);
      }
    }
  }

  lemma {:induction false} SplitSpaceThen(ws: string, rest: string)
    requires AllSpace(ws)
    ensures Split(ws + rest) == Split(rest)
    decreases |ws|
  {
    if ws != [] {
      assert (ws + rest)[0] == ws[0];
      assert (ws + rest)[1..] == ws[1..] + rest;
      SplitSpaceThen(ws[1..], rest);
    } else {
      assert ws + rest == rest;
    }
  }

  lemma {:induction false} TokenEndOf(t: string, rest: string)
    requires IsToken(t)
    requires rest == [] || IsSpace(rest[0])
    ensures TokenEnd(t + rest) == |t|
    decreases |t|
  {
    assert (t + rest)[0] == t[0];
    if |t| > 1 {
      assert (t + rest)[1..] == t[1..] + rest;
      TokenEndOf(t[1..], rest);
    } else {
      assert (t + rest)[1..] == rest;
    }
  }

  /** A token followed by whitespace (or the end of the line) is split off as
      the first field. */
  lemma SplitTokenThen(t: string, rest: string)
    requires IsToken(t)
    requires rest == [] || IsSpace(rest[0])
    ensures Split(t + rest) == [t] + Split(rest)
  {
    TokenEndOf(t, rest);
    assert (t + rest)[..|t|] == t;
    assert (t + rest)[|t|..] == rest;
  }

  /** Round trip: splitting tokens joined by single spaces gives the tokens back. */
  lemma {:induction false} SplitJoin(ts: seq<string>)
    requires forall k :: 0 <= k < |ts| ==> IsToken(ts[k])
    ensures Split(Join(ts)) == ts
    decreases |ts|
  {
    if |ts| == 1 {
      SplitTokenThen(ts[0], []);
      assert ts[0] + [] == ts[0];
    } else if |ts| > 1 {
      var rest := Join(ts[1..]);
      assert Join(ts) == ts[0] + (" " + rest);
      SplitTokenThen(ts[0], " " + rest);
      SplitSpaceThen(" ", rest);
      SplitJoin(ts[1..]);
    }
  }

  /** needle occurs in hay starting at position i. */
  predicate OccursAt(hay: string, needle: string, i: int) {
    0 <= i <= |hay| - |needle| && hay[i..i + |needle|] == needle
  }

  /** `needle in hay` holds exactly when needle is a slice of hay. */
  lemma {:induction false} ContainsAt(hay: string, needle: string)
    ensures Contains(hay, needle) <==> exists i :: OccursAt(hay, needle, i)
    decreases |hay|
  {
    if hay != [] {
      ContainsAt(hay[1..], needle);
      if StartsWith(hay, needle) {
        assert OccursAt(hay, needle, 0);
      }
      if Contains(hay[1..], needle) {
        var i :| OccursAt(hay[1..], needle, i);
        assert hay[i + 1..i + 1 + |needle|] == hay[1..][i..i + |needle|];
        assert OccursAt(hay, needle, i + 1);
      }
      if exists i :: OccursAt(hay, needle, i) {
        var i :| OccursAt(hay, needle, i);
        if i > 0 {
          assert hay[1..][i - 1..i - 1 + |needle|] == hay[i..i + |needle|];
          assert OccursAt(hay[1..], needle, i - 1);
        } else {
          assert StartsWith(hay, needle);
        }
      }
    } else {
      if exists i :: OccursAt(hay, needle, i) {
        var i :| OccursAt(hay, needle, i);
        assert StartsWith(hay, needle);
      }
      if Contains(hay, needle) {
        assert OccursAt(hay, needle, 0);
      }
    }
  }
}
