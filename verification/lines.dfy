/** Text-level helpers: JavaScript's `String.prototype.split('\n')`, its
    inverse, and the concatenation of newline-terminated lines. */
module Lines {

  /** Concatenation of a sequence of text chunks. */
  function Concat(chunks: seq<string>): string
  {
    if |chunks| == 0 then "" else chunks[0] + Concat(chunks[1..])
  }

  /** No element of `lines` contains a newline. */
  predicate NoNewlines(lines: seq<string>)
  {
    forall i :: 0 <= i < |lines| ==> '\n' !in lines[i]
  }

  /** The segments joined back together with '\n' between them
      (`Array.prototype.join('\n')`). */
  function Join(segs: seq<string>): string
    requires |segs| >= 1
  {
    if |segs| == 1 then segs[0] else segs[0] + "\n" + Join(segs[1..])
  }

  /** Every line followed by its terminating '\n'. */
  function Terminated(lines: seq<string>): string
  {
    if |lines| == 0 then "" else lines[0] + "\n" + Terminated(lines[1..])
  }

  /** `s.split('\n')`: the maximal newline-free segments of `s`, in order.
      There is always at least one segment; a trailing '\n' gives a trailing
      empty segment, and the empty string splits into `[""]`. */
  function Split(s: string): (segs: seq<string>)
    ensures |segs| >= 1
    ensures NoNewlines(segs)
    ensures Join(segs) == s
  {
    if |s| == 0 then [""]
    else
      var rest := Split(s[1..]);
      assert s == [s[0]] + s[1..];
      if s[0] == '\n' then
        var segs := [""] + rest;
        assert segs[1..] == rest;
        segs
      else
        var segs := [[s[0]] + rest[0]] + rest[1..];
        assert |rest| > 1 ==> segs[1..] == rest[1..] && Join(rest) == rest[0] + "\n" + Join(rest[1..]);
        segs
  }

  /** There is exactly one more segment than there are newlines. */
  lemma {:induction false} SplitCount(s: string)
    ensures |Split(s)| == 1 + multiset(s)['\n']
    decreases |s|
  {
    if |s| > 0 {
      SplitCount(s[1..]);
      assert s == [s[0]] + s[1..];
      assert multiset(s) == multiset{s[0]} + multiset(s[1..]);
      assert |Split(s)| == (if s[0] == '\n' then 1 else 0) + |Split(s[1..])|;
    }
  }

  /** Splitting a newline-free prefix followed by '\n' yields that prefix as
      the first segment and the split of the rest after it. */
  lemma {:induction false} SplitAfterLine(a: string, t: string)
    requires '\n' !in a
    ensures Split(a + "\n" + t) == [a] + Split(t)
    decreases |a|
  {
    if |a| == 0 {
      assert a + "\n" + t == "\n" + t;
      assert ("\n" + t)[1..] == t;
    } else {
      var s := a + "\n" + t;
      assert s[1..] == a[1..] + "\n" + t;
      SplitAfterLine(a[1..], t);
      assert [a[0]] + a[1..] == a;
    }
  }

  /** A newline-free string is a single segment. */
  lemma {:induction false} SplitSingleSegment(a: string)
    requires '\n' !in a
    ensures Split(a) == [a]
    decreases |a|
  {
    if |a| > 0 {
      SplitSingleSegment(a[1..]);
      assert [a[0]] + a[1..] == a;
    }
  }

  /** Split inverts Join on newline-free segments: the segmentation of a
      string is unique. */
  lemma {:induction false} SplitJoin(segs: seq<string>)
    requires |segs| >= 1
    requires NoNewlines(segs)
    ensures Split(Join(segs)) == segs
    decreases |segs|
  {
    if |segs| == 1 {
      SplitSingleSegment(segs[0]);
    } else {
      assert NoNewlines(segs[1..]) by {
        forall i | 0 <= i < |segs[1..]| ensures '\n' !in segs[1..][i] {
          assert segs[1..][i] == segs[i + 1];
        }
      }
      SplitJoin(segs[1..]);
      assert '\n' !in segs[0];
      SplitAfterLine(segs[0], Join(segs[1..]));
      assert [segs[0]] + segs[1..] == segs;
    }
  }

  /** Joining lines plus a final segment is the terminated lines followed by
      that segment. */
  lemma {:induction false} JoinTerminated(lines: seq<string>, last: string)
    ensures Join(lines + [last]) == Terminated(lines) + last
    decreases |lines|
  {
    if |lines| > 0 {
      assert (lines + [last])[1..] == lines[1..] + [last];
      JoinTerminated(lines[1..], last);
    } else {
      assert lines + [last] == [last];
    }
  }

  /** Terminated distributes over sequence concatenation. */
  lemma {:induction false} TerminatedAppend(a: seq<string>, b: seq<string>)
    ensures Terminated(a + b) == Terminated(a) + Terminated(b)
    decreases |a|
  {
    if |a| == 0 {
      assert a + b == b;
    } else {
      assert (a + b)[1..] == a[1..] + b;
      TerminatedAppend(a[1..], b);
    }
  }

  /** Concat distributes over sequence concatenation. */
  lemma {:induction false} ConcatAppend(a: seq<string>, b: seq<string>)
    ensures Concat(a + b) == Concat(a) + Concat(b)
    decreases |a|
  {
    if |a| == 0 {
      assert a + b == b;
    } else {
      assert (a + b)[1..] == a[1..] + b;
      ConcatAppend(a[1..], b);
    }
  }

  /** Newline-freedom of line sequences is preserved by concatenation. */
  lemma NoNewlinesAppend(a: seq<string>, b: seq<string>)
    requires NoNewlines(a) && NoNewlines(b)
    ensures NoNewlines(a + b)
  {
    forall i | 0 <= i < |a + b| ensures '\n' !in (a + b)[i] {
      if i < |a| {
        assert (a + b)[i] == a[i];
      } else {
        assert (a + b)[i] == b[i - |a|];
      }
    }
  }

  /** A prefix of newline-free lines is newline-free. */
  lemma NoNewlinesPrefix(a: seq<string>, n: nat)
    requires NoNewlines(a) && n <= |a|
    ensures NoNewlines(a[..n])
  {
    forall i | 0 <= i < n ensures '\n' !in a[..n][i] {
      assert a[..n][i] == a[i];
    }
  }

  /** Concatenating two newline-free strings gives a newline-free string. */
  lemma NoNewlineConcat(a: string, b: string)
    requires '\n' !in a && '\n' !in b
    ensures '\n' !in a + b
  {
    forall i | 0 <= i < |a + b| ensures (a + b)[i] != '\n' {
      if i < |a| {
        assert (a + b)[i] == a[i];
      } else {
        assert (a + b)[i] == b[i - |a|];
      }
    }
  }

  /** Extending both sides of an equation between strings on the right. */
  lemma AppendBoth(prefix: string, mid: string, whole: string, tail: string)
    requires prefix + mid == whole
    ensures prefix + (mid + tail) == whole + tail
  {
  }

  /** Two consecutive decompositions compose: if `a + mid == x` and
      `b + rest == mid + y`, then `a + b + rest == x + y`. */
  lemma Splice(a: string, mid: string, x: string, b: string, rest: string, y: string)
    requires a + mid == x
    requires b + rest == mid + y
    ensures (a + b) + rest == x + y
  {
    calc {
      (a + b) + rest;
      a + (b + rest);
      a + (mid + y);
      (a + mid) + y;
    }
  }

  /** String concatenation is associative. */
  lemma AppendAssoc(a: string, b: string, c: string)
    ensures (a + b) + c == a + (b + c)
  {
  }
}
