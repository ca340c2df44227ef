/**
 * `Array.prototype.join` and `String.prototype.split` on strings, for a
 * single-character separator.
 */
module Strings {

  /** `parts.join(sep)`: the parts with `sep` between neighbours, and no separator at either end. */
  function Join(parts: seq<string>, sep: string): string {
    if |parts| == 0 then ""
    else if |parts| == 1 then parts[0]
    else parts[0] + sep + Join(parts[1..], sep)
  }

  /**
   * `s.split(c)`: the maximal pieces of `s` between occurrences of `c`. As in
   * JavaScript the empty string splits into one empty piece.
   */
  function Split(s: string, c: char): (r: seq<string>)
    ensures |r| >= 1
  {
    if |s| == 0 then [""]
    else
      var rest := Split(s[1..], c);
      if s[0] == c then [""] + rest
      else [[s[0]] + rest[0]] + rest[1..]
  }

  /** Joining a first part onto a non-empty rest puts exactly one separator between them. */
  lemma JoinCons(first: string, rest: seq<string>, sep: string)
    requires |rest| >= 1
    ensures Join([first] + rest, sep) == first + sep + Join(rest, sep)
  {
    assert ([first] + rest)[1..] == rest;
  }

  /** Six parts joined: the parts in order with one separator between each pair. */
  lemma JoinSix(xs: seq<string>, sep: string)
    requires |xs| == 6
    ensures Join(xs, sep) == xs[0] + sep + xs[1] + sep + xs[2] + sep + xs[3] + sep + xs[4] + sep + xs[5]
  {
    JoinCons(xs[4], xs[5..], sep);
    JoinCons(xs[3], xs[4..], sep);
    JoinCons(xs[2], xs[3..], sep);
    JoinCons(xs[1], xs[2..], sep);
    JoinCons(xs[0], xs[1..], sep);
    assert xs == [xs[0]] + xs[1..];
    assert xs[1..] == [xs[1]] + xs[2..];
    assert xs[2..] == [xs[2]] + xs[3..];
    assert xs[3..] == [xs[3]] + xs[4..];
    assert xs[4..] == [xs[4]] + xs[5..];
  }

  /** Joining one more part onto the end adds exactly one separator before it. */
  lemma {:induction false} JoinSnoc(parts: seq<string>, sep: string, last: string)
    requires |parts| >= 1
    ensures Join(parts + [last], sep) == Join(parts, sep) + sep + last
  {
    if |parts| > 1 {
      JoinSnoc(parts[1..], sep, last);
      assert (parts + [last])[1..] == parts[1..] + [last];
      JoinCons(parts[0], parts[1..] + [last], sep);
      JoinCons(parts[0], parts[1..], sep);
    } else {
      assert parts + [last] == [parts[0]] + [last];
      JoinCons(parts[0], [last], sep);
    }
  }

  /** Splitting one part at a separator inside it gives the same join as listing its two halves. */
  lemma {:induction false} JoinSplice(pre: seq<string>, x: string, y: string, post: seq<string>, sep: string)
    ensures Join(pre + [x + sep + y] + post, sep) == Join(pre + [x, y] + post, sep)
  {
    if |pre| == 0 {
      assert pre + [x + sep + y] + post == [x + sep + y] + post;
      assert pre + [x, y] + post == [x] + ([y] + post);
      JoinCons(x, [y] + post, sep);
      if |post| > 0 {
        JoinCons(x + sep + y, post, sep);
        JoinCons(y, post, sep);
      }
    } else {
      JoinSplice(pre[1..], x, y, post, sep);
      assert pre + [x + sep + y] + post == [pre[0]] + (pre[1..] + [x + sep + y] + post);
      assert pre + [x, y] + post == [pre[0]] + (pre[1..] + [x, y] + post);
      JoinCons(pre[0], pre[1..] + [x + sep + y] + post, sep);
      JoinCons(pre[0], pre[1..] + [x, y] + post, sep);
    }
  }

  /** A string without the separator is a single piece. */
  lemma {:induction false} SplitWithout(s: string, c: char)
    requires c !in s
    ensures Split(s, c) == [s]
  {
    if |s| > 0 {
      SplitWithout(s[1..], c);
      assert [s[0]] + s[1..] == s;
    }
  }

  /** Splitting at the first separator: the part before it, then the pieces of the rest. */
  lemma {:induction false} SplitAtFirst(a: string, c: char, b: string)
    requires c !in a
    ensures Split(a + [c] + b, c) == [a] + Split(b, c)
  {
    if |a| == 0 {
      assert a + [c] + b == [c] + b;
      assert ([c] + b)[1..] == b;
    } else {
      var s := a + [c] + b;
      assert s[0] == a[0];
      assert s[1..] == a[1..] + [c] + b;
      SplitAtFirst(a[1..], c, b);
      assert [a[0]] + a[1..] == a;
    }
  }

  /** Joining pieces that do not contain the separator and splitting again gives the pieces back. */
  lemma {:induction false} SplitJoin(parts: seq<string>, c: char)
    requires |parts| >= 1
    requires forall k :: 0 <= k < |parts| ==> c !in parts[k]
    ensures Split(Join(parts, [c]), c) == parts
  {
    if |parts| == 1 {
      SplitWithout(parts[0], c);
    } else {
      SplitJoin(parts[1..], c);
      SplitAtFirst(parts[0], c, Join(parts[1..], [c]));
      assert [parts[0]] + parts[1..] == parts;
    }
  }

  /** A joined string contains the separator character only where it came from a part or a separator. */
  lemma {:induction false} JoinContains(parts: seq<string>, sep: string, x: char)
    requires x !in sep
    requires forall k :: 0 <= k < |parts| ==> x !in parts[k]
    ensures x !in Join(parts, sep)
  {
    if |parts| > 1 {
      JoinContains(parts[1..], sep, x);
    }
  }
}
