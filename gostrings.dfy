/**
 * The parts of Go's `strings` package that the blog relies on, written out over
 * `seq<char>`: `TrimSpace` (applied to every stored tag), `Split` and `Join`
 * (the tag list travels through a comma-separated form and back) and an ASCII
 * `ToLower` (used on file extensions).
 */
module GoStrings {

  /** `unicode.IsSpace`: the runes `strings.TrimSpace` removes from both ends. */
  predicate IsSpace(c: char) {
    || c == '\t' || c == '\n' || c == '\U{000B}' || c == '\U{000C}' || c == '\r' || c == ' '
    || c == '\U{0085}' || c == '\U{00A0}' || c == '\U{1680}'
    || ('\U{2000}' <= c <= '\U{200A}')
    || c == '\U{2028}' || c == '\U{2029}' || c == '\U{202F}' || c == '\U{205F}' || c == '\U{3000}'
  }

  /** Drops trailing white space: what is left is a prefix of `s` that ends with a non-space. */
  function TrimRight(s: string): (r: string)
    ensures |r| <= |s| && r == s[..|r|]
    ensures forall k :: |r| <= k < |s| ==> IsSpace(s[k])
    ensures r == [] || !IsSpace(r[|r| - 1])
  {
    if |s| > 0 && IsSpace(s[|s| - 1]) then TrimRight(s[..|s| - 1]) else s
  }

  /** The number of white-space runes at the start of `s`. */
  function LeadingSpaces(s: string): (n: nat)
    ensures n <= |s|
    ensures forall k | 0 <= k < n :: IsSpace(s[k])
    ensures n == |s| || !IsSpace(s[n])
  {
    if |s| > 0 && IsSpace(s[0]) then 1 + LeadingSpaces(s[1..]) else 0
  }

  /**
   * `strings.TrimSpace`: the slice of `s` that starts after its leading white
   * space and ends before its trailing white space, so that only white space is
   * removed and none is left at either end.
   */
  function TrimSpace(s: string): (r: string)
    ensures LeadingSpaces(s) + |r| <= |s|
    ensures r == s[LeadingSpaces(s)..LeadingSpaces(s) + |r|]
    ensures forall k | LeadingSpaces(s) + |r| <= k < |s| :: IsSpace(s[k])
    ensures r == [] || (!IsSpace(r[0]) && !IsSpace(r[|r| - 1]))
    ensures forall c | c in r :: c in s
  {
    var n := LeadingSpaces(s);
    var r := TrimRight(s[n..]);
    assert r == s[n..n + |r|];
    forall k | n + |r| <= k < |s|
      ensures IsSpace(s[k])
    {
      assert s[k] == s[n..][k - n];
    }
    r
  }

  /** Number of occurrences of `c` in `s`. */
  function Count(s: string, c: char): nat {
    if s == [] then 0 else (if s[0] == c then 1 else 0) + Count(s[1..], c)
  }

  /**
   * `strings.Split(s, string(sep))`: the pieces between separators, empty pieces
   * included; the empty string gives one empty piece.
   */
  function Split(s: string, sep: char): (parts: seq<string>)
    ensures |parts| == Count(s, sep) + 1
    ensures forall k | 0 <= k < |parts| :: sep !in parts[k]
  {
    if s == [] then [""]
    else
      var rest := Split(s[1..], sep);
      if s[0] == sep then [""] + rest
      else [[s[0]] + rest[0]] + rest[1..]
  }

  /** `strings.Join(xs, sep)`: the elements with `sep` between neighbours. */
  function Join(xs: seq<string>, sep: string): (r: string)
    ensures |xs| == 1 ==> r == xs[0]
  {
    if xs == [] then ""
    else if |xs| == 1 then xs[0]
    else xs[0] + sep + Join(xs[1..], sep)
  }

  /** Joining the pieces of a split with the same separator gives back the string. */
  lemma {:induction false} JoinSplit(s: string, sep: char)
    ensures Join(Split(s, sep), [sep]) == s
  {
    if s != [] {
      var rest := Split(s[1..], sep);
      JoinSplit(s[1..], sep);
      if s[0] == sep {
        assert Join([""] + rest, [sep]) == "" + [sep] + Join(rest, [sep]);
      } else {
        var parts := [[s[0]] + rest[0]] + rest[1..];
        if |rest| == 1 {
          assert parts == [[s[0]] + rest[0]];
        } else {
          assert parts[1..] == rest[1..];
          assert Join(rest, [sep]) == rest[0] + [sep] + Join(rest[1..], [sep]);
        }
      }
    }
  }

  /** A piece free of the separator, followed by the separator, splits off as one piece. */
  lemma {:induction false} SplitPrefix(a: string, sep: char, b: string)
    requires sep !in a
    ensures Split(a + [sep] + b, sep) == [a] + Split(b, sep)
  {
    if a != [] {
      SplitPrefix(a[1..], sep, b);
      assert (a + [sep] + b)[1..] == a[1..] + [sep] + b;
      assert [a[0]] + a[1..] == a;
      assert ([a[1..]] + Split(b, sep))[1..] == Split(b, sep);
    } else {
      assert a + [sep] + b == [sep] + b;
    }
  }

  /** A separator-free string splits into itself alone. */
  lemma {:induction false} SplitNoSeparator(a: string, sep: char)
    requires sep !in a
    ensures Split(a, sep) == [a]
  {
    if a != [] {
      SplitNoSeparator(a[1..], sep);
      assert [a[0]] + a[1..] == a;
    }
  }

  /**
   * Splitting a join of separator-free pieces gives the pieces back; the empty
   * list is the one list this cannot recover, since it joins to "" like [""].
   */
  lemma {:induction false} SplitJoin(xs: seq<string>, sep: char)
    requires xs != []
    requires forall k | 0 <= k < |xs| :: sep !in xs[k]
    ensures Split(Join(xs, [sep]), sep) == xs
  {
    if |xs| == 1 {
      SplitNoSeparator(xs[0], sep);
    } else {
      var tail := Join(xs[1..], [sep]);
      assert Join(xs, [sep]) == xs[0] + [sep] + tail;
      assert sep !in xs[0];
      SplitJoin(xs[1..], sep);
      SplitPrefix(xs[0], sep, tail);
      assert xs == [xs[0]] + xs[1..];
    }
  }

  /** Every element with `p` in front. */
  function Prefixed(xs: seq<string>, p: string): (r: seq<string>)
    ensures |r| == |xs| && forall k | 0 <= k < |xs| :: r[k] == p + xs[k]
  {
    seq(|xs|, k requires 0 <= k < |xs| => p + xs[k])
  }

  /** Joining with ", " is joining with "," after a space in front of every element but the first. */
  lemma {:induction false} JoinCommaSpace(xs: seq<string>)
    requires xs != []
    ensures Join(xs, ", ") == Join([xs[0]] + Prefixed(xs[1..], " "), ",")
  {
    if |xs| > 1 {
      JoinPrefixed(xs[1..]);
      var ys := [xs[0]] + Prefixed(xs[1..], " ");
      assert ys[1..] == Prefixed(xs[1..], " ");
    }
  }

  lemma {:induction false} JoinPrefixed(ys: seq<string>)
    requires ys != []
    ensures Join(Prefixed(ys, " "), ",") == " " + Join(ys, ", ")
  {
    if |ys| > 1 {
      JoinPrefixed(ys[1..]);
      assert Prefixed(ys, " ")[1..] == Prefixed(ys[1..], " ");
    }
  }

  /** A space in front is trimmed away. */
  lemma TrimSpaceAfterSpace(t: string)
    ensures TrimSpace(" " + t) == TrimSpace(t)
  {
    var s := " " + t;
    assert s[1..] == t;
    assert LeadingSpaces(s) == 1 + LeadingSpaces(t);
    assert s[LeadingSpaces(s)..] == t[LeadingSpaces(t)..];
  }

  /** ASCII upper case to lower case, every other rune kept. */
  function ToLowerChar(c: char): (r: char)
    ensures 'A' <= c <= 'Z' ==> r as int == c as int + 32
    ensures !('A' <= c <= 'Z') ==> r == c
  {
    if 'A' <= c <= 'Z' then (c as int + 32) as char else c
  }

  function ToLower(s: string): (r: string)
    ensures |r| == |s|
    ensures forall k | 0 <= k < |s| :: r[k] == ToLowerChar(s[k])
  {
    seq(|s|, k requires 0 <= k < |s| => ToLowerChar(s[k]))
  }
}
