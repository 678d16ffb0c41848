/** String helpers shared by the TypeScript and the Python parts of the model:
    `split` on a one-character separator (the same in JavaScript and in Python
    when the separator is given), `join` with a separator, and prefix tests. */
module Strings {

  /** `s.split(c)`: the maximal runs of characters other than `c`, in order;
      n separators give n + 1 pieces, empty pieces included. */
  function Split(s: string, c: char): (r: seq<string>)
    ensures |r| >= 1
    ensures forall i :: 0 <= i < |r| ==> c !in r[i]
    decreases |s|
  {
    if |s| == 0 then [""]
    else
      var rest := Split(s[1..], c);
      if s[0] == c then [""] + rest
      else [[s[0]] + rest[0]] + rest[1..]
  }

  /** `sep.join(parts)` (Python) and `parts.join(sep)` (JavaScript). */
  function Join(parts: seq<string>, sep: string): (r: string)
    ensures |parts| == 0 ==> r == ""
    ensures |parts| > 0 ==> |r| >= |parts[0]| + (|parts| - 1) * |sep|
    decreases |parts|
  {
    if |parts| == 0 then ""
    else if |parts| == 1 then parts[0]
    else parts[0] + sep + Join(parts[1..], sep)
  }

  /** `s.startsWith(prefix)`: `s` is `prefix` followed by the rest of `s`. */
  predicate StartsWith(s: string, prefix: string)
    ensures StartsWith(s, prefix) <==> |prefix| <= |s| && s == prefix + s[|prefix|..]
  {
    |prefix| <= |s| && s[..|prefix|] == prefix
  }

  /** Number of occurrences of `c` in `s`. */
  function Count(s: string, c: char): nat
  {
    if |s| == 0 then 0 else (if s[0] == c then 1 else 0) + Count(s[1..], c)
  }

  /** Joining the pieces of a split with the separator gives the string back. */
  lemma {:induction false} JoinSplit(s: string, c: char)
    ensures Join(Split(s, c), [c]) == s
  {
    if |s| > 0 {
      JoinSplit(s[1..], c);
      var rest := Split(s[1..], c);
      if s[0] == c {
        assert Split(s, c) == [""] + rest;
        assert Join([""] + rest, [c]) == "" + [c] + Join(rest, [c]);
        assert s == [s[0]] + s[1..];
      } else {
        var r := Split(s, c);
        assert r == [[s[0]] + rest[0]] + rest[1..];
        if |rest| == 1 {
          assert r == [[s[0]] + rest[0]];
          assert s == [s[0]] + s[1..];
        } else {
          assert r[1..] == rest[1..];
          assert Join(rest, [c]) == rest[0] + [c] + Join(rest[1..], [c]);
          assert Join(r, [c]) == [s[0]] + rest[0] + [c] + Join(rest[1..], [c]);
          assert s == [s[0]] + s[1..];
        }
      }
    }
  }

  /** Splitting the join of separator-free pieces gives the pieces back. */
  lemma {:induction false} SplitJoin(parts: seq<string>, c: char)
    requires |parts| >= 1
    requires forall i :: 0 <= i < |parts| ==> c !in parts[i]
    ensures Split(Join(parts, [c]), c) == parts
    decreases |parts|, |parts[0]|
  {
    if |parts[0]| == 0 {
      if |parts| == 1 {
        assert Join(parts, [c]) == "";
      } else {
        var tail := parts[1..];
        SplitJoin(tail, c);
        var j := Join(parts, [c]);
        assert j == [c] + Join(tail, [c]);
        assert j[1..] == Join(tail, [c]);
        assert parts == [""] + tail;
      }
    } else {
      var p0 := parts[0];
      var shorter := [p0[1..]] + parts[1..];
      assert forall i :: 0 <= i < |shorter| ==> c !in shorter[i] by {
        forall i | 0 <= i < |shorter| ensures c !in shorter[i] {
          if i == 0 { assert forall ch :: ch in p0[1..] ==> ch in p0; }
          else { assert shorter[i] == parts[i]; }
        }
      }
      SplitJoin(shorter, c);
      var j := Join(parts, [c]);
      JoinConsFirst(parts, shorter, c);
      assert j == [p0[0]] + Join(shorter, [c]);
      assert j[0] == p0[0] && j[1..] == Join(shorter, [c]);
      assert p0[0] != c by { assert p0[0] in p0; }
      var rest := Split(j[1..], c);
      assert rest == shorter;
      assert Split(j, c) == [[p0[0]] + rest[0]] + rest[1..];
      assert [p0[0]] + p0[1..] == p0;
      assert [[p0[0]] + rest[0]] + rest[1..] == parts;
    }
  }

  /** Peeling the first character off the first piece of a join. */
  lemma JoinConsFirst(parts: seq<string>, shorter: seq<string>, c: char)
    requires |parts| >= 1 && |parts[0]| >= 1
    requires shorter == [parts[0][1..]] + parts[1..]
    ensures Join(parts, [c]) == [parts[0][0]] + Join(shorter, [c])
  {
    if |parts| > 1 {
      assert shorter[1..] == parts[1..];
      assert parts[0] == [parts[0][0]] + parts[0][1..];
    } else {
      assert parts[0] == [parts[0][0]] + parts[0][1..];
    }
  }

  /** A join begins with its first part, followed by the separator when
      more parts come, and then by the join of the rest. */
  lemma JoinFirstPart(parts: seq<string>, sep: string)
    requires |parts| > 0
    ensures StartsWith(Join(parts, sep), parts[0])
    ensures |parts| > 1 ==>
      StartsWith(Join(parts, sep), parts[0] + sep) &&
      Join(parts, sep)[|parts[0]| + |sep|..] == Join(parts[1..], sep)
  {
    var r := Join(parts, sep);
    if |parts| > 1 {
      assert r == (parts[0] + sep) + Join(parts[1..], sep);
      assert r[..|parts[0]| + |sep|] == parts[0] + sep;
    }
    assert r[..|parts[0]|] == parts[0];
  }

  /** There is one more piece than there are separators. */
  lemma {:induction false} SplitCount(s: string, c: char)
    ensures |Split(s, c)| == Count(s, c) + 1
  {
    if |s| > 0 { SplitCount(s[1..], c); }
  }

  /** The first piece is the longest separator-free prefix. */
  lemma {:induction false} SplitFirstIsPrefix(s: string, c: char)
    ensures var p := Split(s, c)[0];
      |p| <= |s| && s[..|p|] == p && (|p| == |s| || s[|p|] == c)
    decreases |s|
  {
    if |s| > 0 && s[0] != c {
      SplitFirstIsPrefix(s[1..], c);
      var q := Split(s[1..], c)[0];
      assert Split(s, c)[0] == [s[0]] + q;
      assert s[1..][..|q|] == q;
      assert s[..|q| + 1] == [s[0]] + s[1..][..|q|];
    }
  }

  /** Splitting `a + [c] + b` where `a` has no separator: the pieces of `b` follow `a`. */
  lemma {:induction false} SplitAfter(a: string, c: char, b: string)
    requires c !in a
    ensures Split(a + [c] + b, c) == [a] + Split(b, c)
    decreases |a|
  {
    var s := a + [c] + b;
    if |a| == 0 {
      assert s == [c] + b;
      assert s[1..] == b;
    } else {
      assert s[0] == a[0] && s[1..] == a[1..] + [c] + b;
      assert c !in a[1..] by { forall ch | ch in a[1..] ensures ch in a { } }
      SplitAfter(a[1..], c, b);
      assert a[0] != c by { assert a[0] in a; }
      assert [a[0]] + a[1..] == a;
    }
  }

  /** A string without the separator is a single piece. */
  lemma {:induction false} SplitNoSeparator(s: string, c: char)
    requires c !in s
    ensures Split(s, c) == [s]
  {
    if |s| > 0 {
      assert c !in s[1..] by { forall ch | ch in s[1..] ensures ch in s { } }
      SplitNoSeparator(s[1..], c);
      assert s[0] != c by { assert s[0] in s; }
      assert [s[0]] + s[1..] == s;
    }
  }

  /** A string holding the separator has at least two pieces. */
  lemma {:induction false} SplitHasTwo(s: string, c: char)
    requires c in s
    ensures |Split(s, c)| >= 2
  {
    if s[0] != c {
      assert c in s[1..] by {
        var k :| 0 <= k < |s| && s[k] == c;
        assert s[1..][k - 1] == c;
      }
      SplitHasTwo(s[1..], c);
    }
  }
}
