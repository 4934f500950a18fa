/** The JavaScript string and array operations that the extension's path and
    file-name code is built from, each for a one-character separator:
    `split`, `join`, `pop`, `slice(0, -1)`, `filter(Boolean)`, `substring`
    and `trim`. Strings are sequences of Unicode scalar values; every
    character the extension splits on or strips lies in the Basic
    Multilingual Plane, where that agrees with JavaScript's UTF-16 units. */
module JsString {

  /** `s.split(c)`: the pieces of `s` between the occurrences of `c`, left to
      right. Never empty: `"".split(c)` is `[""]`. */
  function Split(s: string, c: char): (parts: seq<string>)
    ensures |parts| >= 1
    ensures forall i :: 0 <= i < |parts| ==> c !in parts[i]
    ensures c !in s ==> parts == [s]
    ensures parts[0] <= s && (|parts[0]| < |s| ==> s[|parts[0]|] == c)
  {
    if s == [] then [""]
    else
      var rest := Split(s[1..], c);
      if s[0] == c then [""] + rest
      else
        assert c !in s ==> c !in s[1..] && rest == [s[1..]] by {
          if c !in s { assert forall x :: x in s[1..] ==> x in s; }
        }
        assert s == [s[0]] + s[1..];
        [[s[0]] + rest[0]] + rest[1..]
  }

  /** `parts.join(c)`. */
  function Join(parts: seq<string>, c: char): string
  {
    if |parts| == 0 then ""
    else if |parts| == 1 then parts[0]
    else parts[0] + [c] + Join(parts[1..], c)
  }

  /** `parts.pop()` on an array that cannot be empty, such as a split. */
  function Last(parts: seq<string>): string
    requires |parts| >= 1
  {
    parts[|parts| - 1]
  }

  /** `xs.slice(0, -1)`: everything but the last element. */
  function DropLast<T>(xs: seq<T>): seq<T>
  {
    if |xs| == 0 then [] else xs[..|xs| - 1]
  }

  /** `parts.filter(Boolean)` on strings: the non-empty ones, in order. */
  function NonEmpty(parts: seq<string>): (kept: seq<string>)
    ensures |kept| <= |parts|
    ensures forall i :: 0 <= i < |kept| ==> kept[i] != "" && kept[i] in parts
    ensures forall x :: x in parts && x != "" ==> x in kept
  {
    if |parts| == 0 then []
    else (if parts[0] != "" then [parts[0]] else []) + NonEmpty(parts[1..])
  }

  /** `s.substring(start, end)`: both bounds are clamped to the length of `s`
      and swapped when out of order. */
  function Substring(s: string, start: nat, end: nat): (r: string)
    ensures start <= end ==> |r| <= end - start
    ensures start <= end <= |s| ==> r == s[start..end]
    ensures start <= |s| <= end ==> r == s[start..]
    ensures |s| <= start <= end ==> r == ""
  {
    var lo := if start < |s| then start else |s|;
    var hi := if end < |s| then end else |s|;
    if lo <= hi then s[lo..hi] else s[hi..lo]
  }

  /** The characters `String.prototype.trim` removes: ECMAScript's WhiteSpace
      (tab, vertical tab, form feed, space, no-break space, byte-order mark
      and the space separators) and LineTerminator. */
  predicate IsJsWhitespace(ch: char)
  {
    || ch == '\t' || ch == '\n' || ch == '\U{B}' || ch == '\U{C}' || ch == '\r'
    || ch == ' ' || ch == '\U{A0}' || ch == '\U{1680}'
    || ('\U{2000}' <= ch <= '\U{200A}')
    || ch == '\U{2028}' || ch == '\U{2029}' || ch == '\U{202F}'
    || ch == '\U{205F}' || ch == '\U{3000}' || ch == '\U{FEFF}'
  }

  /** Drops the leading white space: the result is the suffix of `s` that
      starts at its first other character. */
  function TrimStart(s: string): (r: string)
    ensures |r| <= |s| && r == s[|s| - |r|..]
    ensures forall k :: 0 <= k < |s| - |r| ==> IsJsWhitespace(s[k])
    ensures r == [] || !IsJsWhitespace(r[0])
  {
    if s != [] && IsJsWhitespace(s[0]) then TrimStart(s[1..]) else s
  }

  /** Drops the trailing white space: the result is the prefix of `s` that
      ends at its last other character. */
  function TrimEnd(s: string): (r: string)
    ensures |r| <= |s| && r == s[..|r|]
    ensures forall k :: |r| <= k < |s| ==> IsJsWhitespace(s[k])
    ensures r == [] || !IsJsWhitespace(r[|r| - 1])
  {
    if s != [] && IsJsWhitespace(s[|s| - 1]) then TrimEnd(s[..|s| - 1]) else s
  }

  /** `s.trim()`. */
  function Trim(s: string): (r: string)
    ensures r == [] || (!IsJsWhitespace(r[0]) && !IsJsWhitespace(r[|r| - 1]))
    ensures (forall k :: 0 <= k < |s| ==> IsJsWhitespace(s[k])) ==> r == []
  {
    TrimEnd(TrimStart(s))
  }

  /** `trim` keeps the middle of the text: the result is the slice that
      starts at offset `k`, with only white space before it and after it. */
  lemma TrimKeepsMiddle(s: string) returns (k: nat)
    ensures k + |Trim(s)| <= |s|
    ensures Trim(s) == s[k..k + |Trim(s)|]
    ensures forall i :: 0 <= i < k ==> IsJsWhitespace(s[i])
    ensures forall i :: k + |Trim(s)| <= i < |s| ==> IsJsWhitespace(s[i])
  {
    var t := TrimStart(s);
    k := |s| - |t|;
    MiddleOfSuffix(s, k, t, TrimEnd(t));
  }

  /** `r` is a prefix of the suffix `t` of `s` that starts at `k`, and the
      rest of `t` is white space: then `r` is a slice of `s` followed only by
      white space. */
  lemma MiddleOfSuffix(s: string, k: nat, t: string, r: string)
    requires k <= |s| && t == s[k..]
    requires |r| <= |t| && r == t[..|r|]
    requires forall j :: |r| <= j < |t| ==> IsJsWhitespace(t[j])
    ensures k + |r| <= |s| && r == s[k..k + |r|]
    ensures forall i :: k + |r| <= i < |s| ==> IsJsWhitespace(s[i])
  {
    SliceOfSuffix(s, k, |r|);
    forall i | k + |r| <= i < |s|
      ensures IsJsWhitespace(s[i])
    {
      assert s[i] == t[i - k];
    }
  }

  lemma SliceOfSuffix(s: string, k: nat, n: nat)
    requires k + n <= |s|
    ensures s[k..][..n] == s[k..k + n]
  {
  }

  /** Splitting at a separator that occurs once, between `a` and `b`,
      concatenates the splits of the two sides. */
  lemma {:induction false} SplitAppend(a: string, b: string, c: char)
    ensures Split(a + [c] + b, c) == Split(a, c) + Split(b, c)
    decreases |a|
  {
    if a == [] {
      assert a + [c] + b == [c] + b;
      assert ([c] + b)[1..] == b;
    } else {
      SplitAppend(a[1..], b, c);
      SplitAppendStep(a, b, c);
    }
  }

  /** The inductive step of `SplitAppend`: the first character of `a`
      opens a new piece on both sides when it is the separator, and joins
      the first piece on both sides otherwise. */
  lemma SplitAppendStep(a: string, b: string, c: char)
    requires a != []
    requires Split(a[1..] + [c] + b, c) == Split(a[1..], c) + Split(b, c)
    ensures Split(a + [c] + b, c) == Split(a, c) + Split(b, c)
  {
    var x := a[0];
    SplitOffHead(a, c, b);
    if x == c {
      SplitAppendSeparator(x, a[1..], b, c);
    } else {
      SplitAppendOther(x, a[1..], b, c);
    }
  }

  lemma SplitAppendSeparator(x: char, rest: string, b: string, c: char)
    requires x == c
    requires Split(rest + [c] + b, c) == Split(rest, c) + Split(b, c)
    ensures Split([x] + (rest + [c] + b), c) == Split([x] + rest, c) + Split(b, c)
  {
    var front, back := Split(rest, c), Split(b, c);
    calc {
      Split([x] + (rest + [c] + b), c);
    == { SplitCons(x, rest + [c] + b, c); }
      [""] + (front + back);
    == { ConsAppend("", front, back); }
      ([""] + front) + back;
    == { SplitCons(x, rest, c); }
      Split([x] + rest, c) + back;
    }
  }

  lemma SplitAppendOther(x: char, rest: string, b: string, c: char)
    requires x != c
    requires Split(rest + [c] + b, c) == Split(rest, c) + Split(b, c)
    ensures Split([x] + (rest + [c] + b), c) == Split([x] + rest, c) + Split(b, c)
  {
    var front, back := Split(rest, c), Split(b, c);
    calc {
      Split([x] + (rest + [c] + b), c);
    == { SplitCons(x, rest + [c] + b, c); }
      [[x] + Split(rest + [c] + b, c)[0]] + Split(rest + [c] + b, c)[1..];
    == { HeadTailAppend(front, back); }
      [[x] + front[0]] + (front[1..] + back);
    == { ConsAppend([x] + front[0], front[1..], back); }
      ([[x] + front[0]] + front[1..]) + back;
    == { SplitCons(x, rest, c); }
      Split([x] + rest, c) + back;
    }
  }

  /** One step of `Split`: a leading separator starts a new empty piece,
      any other character joins the first piece. */
  lemma SplitCons(x: char, t: string, c: char)
    ensures Split([x] + t, c) == if x == c then [""] + Split(t, c)
                                 else [[x] + Split(t, c)[0]] + Split(t, c)[1..]
  {
    assert ([x] + t)[0] == x && ([x] + t)[1..] == t;
  }

  lemma ConsAppend<T>(x: T, front: seq<T>, back: seq<T>)
    ensures [x] + (front + back) == ([x] + front) + back
  {
  }

  lemma SplitOffHead<T>(a: seq<T>, m: T, b: seq<T>)
    requires a != []
    ensures a + [m] + b == [a[0]] + (a[1..] + [m] + b)
    ensures [a[0]] + a[1..] == a
  {
  }

  lemma HeadTailAppend<T>(front: seq<T>, back: seq<T>)
    requires |front| >= 1
    ensures (front + back)[0] == front[0] && (front + back)[1..] == front[1..] + back
  {
  }

  /** Joining appends the last piece after one separator. */
  lemma {:induction false} JoinSnoc(parts: seq<string>, x: string, c: char)
    requires |parts| >= 1
    ensures Join(parts + [x], c) == Join(parts, c) + [c] + x
    decreases |parts|
  {
    if |parts| == 1 {
      assert (parts + [x])[1..] == [x];
    } else {
      assert (parts + [x])[1..] == parts[1..] + [x];
      JoinSnoc(parts[1..], x, c);
    }
  }

  /** Round trip one way: joining the pieces of a split gives back the
      string. */
  lemma {:induction false} JoinSplit(s: string, c: char)
    ensures Join(Split(s, c), c) == s
    decreases |s|
  {
    if s != [] {
      var rest := Split(s[1..], c);
      JoinSplit(s[1..], c);
      var parts := Split(s, c);
      if s[0] == c {
        assert parts[1..] == rest;
      } else if |rest| >= 2 {
        assert parts[1..] == rest[1..];
      }
    }
  }

  /** Round trip the other way: splitting a join of separator-free pieces
      gives back the pieces. */
  lemma {:induction false} SplitJoin(parts: seq<string>, c: char)
    requires |parts| >= 1
    requires forall i :: 0 <= i < |parts| ==> c !in parts[i]
    ensures Split(Join(parts, c), c) == parts
    decreases |parts|
  {
    if |parts| > 1 {
      calc {
        Split(Join(parts, c), c);
        Split(parts[0] + [c] + Join(parts[1..], c), c);
        { SplitAppend(parts[0], Join(parts[1..], c), c); }
        Split(parts[0], c) + Split(Join(parts[1..], c), c);
        { SplitJoin(parts[1..], c); }
        [parts[0]] + parts[1..];
        { HeadTail(parts); }
        parts;
      }
    }
  }

  lemma HeadTail<T>(s: seq<T>)
    requires s != []
    ensures [s[0]] + s[1..] == s
  {
  }

  /** Splitting a string that ends in a separator-free piece `b` ends the
      split with that piece, and what precedes it joins back to `a`. */
  lemma SplitLastPiece(a: string, b: string, c: char)
    requires c !in b
    ensures Split(a + [c] + b, c) == Split(a, c) + [b]
    ensures Last(Split(a + [c] + b, c)) == b
    ensures Join(DropLast(Split(a + [c] + b, c)), c) == a
  {
    SplitAppend(a, b, c);
    var parts := Split(a + [c] + b, c);
    assert DropLast(parts) == Split(a, c);
    JoinSplit(a, c);
  }

  /** What `pop` and `slice(0, -1)` see of a split: the last piece holds no
      separator, and either the separator does not occur and the last piece
      is the whole string and nothing precedes it, or the string is the
      join of the preceding pieces, the separator and the last piece. */
  lemma SplitAtLast(s: string, c: char)
    ensures c !in Last(Split(s, c))
    ensures c !in s ==> Last(Split(s, c)) == s && DropLast(Split(s, c)) == []
    ensures c in s ==> s == Join(DropLast(Split(s, c)), c) + [c] + Last(Split(s, c))
  {
    var parts := Split(s, c);
    JoinSplit(s, c);
    if |parts| >= 2 {
      assert parts == DropLast(parts) + [Last(parts)];
      JoinSnoc(DropLast(parts), Last(parts), c);
      assert c in s by {
        var j := |Join(DropLast(parts), c)|;
        assert s[j] == c;
      }
    }
  }

  /** `filter(Boolean)` distributes over concatenation, so it keeps order. */
  lemma {:induction false} NonEmptyAppend(a: seq<string>, b: seq<string>)
    ensures NonEmpty(a + b) == NonEmpty(a) + NonEmpty(b)
    decreases |a|
  {
    if a == [] {
      assert a + b == b;
    } else {
      assert (a + b)[1..] == a[1..] + b;
      NonEmptyAppend(a[1..], b);
      var head := if a[0] != "" then [a[0]] else [];
      assert (a + b)[0] == a[0];
      calc {
        NonEmpty(a + b);
        head + NonEmpty(a[1..] + b);
        head + (NonEmpty(a[1..]) + NonEmpty(b));
        (head + NonEmpty(a[1..])) + NonEmpty(b);
      }
    }
  }
}
