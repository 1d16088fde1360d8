/** The string operations of Go's `strings` package that build and take apart names. */
module Text {
  /** strings.SplitN for a one-character separator and n >= 1. */
  function SplitN(s: string, sep: char, n: nat): (parts: seq<string>)
    requires n >= 1
    ensures 1 <= |parts| <= n
    decreases |s|
  {
    if n == 1 || s == [] then [s]
    else if s[0] == sep then [""] + SplitN(s[1..], sep, n - 1)
    else
      var rest := SplitN(s[1..], sep, n);
      [[s[0]] + rest[0]] + rest[1..]
  }

  /** strings.Split */
  function Split(s: string, sep: char): (parts: seq<string>)
    ensures |parts| >= 1
  {
    SplitN(s, sep, |s| + 1)
  }

  /** strings.Join */
  function Join(parts: seq<string>, sep: char): string {
    if parts == [] then ""
    else if |parts| == 1 then parts[0]
    else parts[0] + [sep] + Join(parts[1..], sep)
  }

  predicate HasSuffix(s: string, suffix: string) {
    |suffix| <= |s| && s[|s| - |suffix|..] == suffix
  }

  /** strings.TrimSuffix */
  function TrimSuffix(s: string, suffix: string): string {
    if HasSuffix(s, suffix) then s[..|s| - |suffix|] else s
  }

  lemma TrimSuffixAppend(s: string, suffix: string)
    ensures HasSuffix(s + suffix, suffix) && TrimSuffix(s + suffix, suffix) == s
  {}

  /** A part without the separator is cut off whole. */
  lemma {:induction false} SplitHead(head: string, rest: string, sep: char, n: nat)
    requires n >= 2 && sep !in head
    ensures SplitN(head + [sep] + rest, sep, n) == [head] + SplitN(rest, sep, n - 1)
  {
    var s := head + [sep] + rest;
    if head == [] {
      assert s[1..] == rest;
    } else {
      assert s[1..] == head[1..] + [sep] + rest;
      SplitHead(head[1..], rest, sep, n);
      assert [head[0]] + head[1..] == head;
    }
  }

  lemma {:induction false} SplitNone(s: string, sep: char, n: nat)
    requires n >= 1 && sep !in s
    ensures SplitN(s, sep, n) == [s]
  {
    if n > 1 && s != [] {
      SplitNone(s[1..], sep, n);
      assert [s[0]] + s[1..] == s;
    }
  }

  lemma {:induction false} SplitNJoin(parts: seq<string>, sep: char, n: nat)
    requires 1 <= |parts| <= n
    requires forall p <- parts :: sep !in p
    ensures SplitN(Join(parts, sep), sep, n) == parts
    decreases |parts|
  {
    if |parts| == 1 {
      SplitNone(parts[0], sep, n);
    } else {
      SplitHead(parts[0], Join(parts[1..], sep), sep, n);
      SplitNJoin(parts[1..], sep, n - 1);
    }
  }

  lemma {:induction false} JoinLength(parts: seq<string>, sep: char)
    ensures |parts| <= |Join(parts, sep)| + 1
    decreases |parts|
  {
    if |parts| > 1 { JoinLength(parts[1..], sep); }
  }

  /** Splitting undoes joining when no part holds the separator. */
  lemma SplitJoin(parts: seq<string>, sep: char)
    requires parts != []
    requires forall p <- parts :: sep !in p
    ensures Split(Join(parts, sep), sep) == parts
  {
    JoinLength(parts, sep);
    SplitNJoin(parts, sep, |Join(parts, sep)| + 1);
  }

  lemma {:induction false} JoinAppend(parts: seq<string>, last: string, sep: char)
    requires parts != []
    ensures Join(parts + [last], sep) == Join(parts, sep) + [sep] + last
    decreases |parts|
  {
    if |parts| == 1 {
      assert (parts + [last])[1..] == [last];
    } else {
      assert (parts + [last])[1..] == parts[1..] + [last];
      JoinAppend(parts[1..], last, sep);
    }
  }

  lemma {:induction false} JoinLastChar(parts: seq<string>, sep: char)
    requires parts != [] && parts[|parts| - 1] != ""
    ensures Join(parts, sep) != ""
    ensures Join(parts, sep)[|Join(parts, sep)| - 1] == parts[|parts| - 1][|parts[|parts| - 1]| - 1]
    decreases |parts|
  {
    if |parts| > 1 { JoinLastChar(parts[1..], sep); }
  }

  lemma JoinThree(a: string, b: string, c: string, sep: char)
    ensures Join([a, b, c], sep) == a + [sep] + b + [sep] + c
  {
    assert [a, b, c][1..] == [b, c] && [b, c][1..] == [c];
    assert Join([b, c], sep) == b + [sep] + c;
    assert a + [sep] + (b + [sep] + c) == a + [sep] + b + [sep] + c;
  }

  /** Joining undoes splitting, for every text and limit. */
  lemma {:induction false} JoinSplitN(s: string, sep: char, n: nat)
    requires n >= 1
    ensures Join(SplitN(s, sep, n), sep) == s
    decreases |s|
  {
    if n > 1 && s != [] {
      assert s == [s[0]] + s[1..];
      if s[0] == sep {
        JoinSplitN(s[1..], sep, n - 1);
        assert ([""] + SplitN(s[1..], sep, n - 1))[1..] == SplitN(s[1..], sep, n - 1);
      } else {
        JoinSplitN(s[1..], sep, n);
        var rest := SplitN(s[1..], sep, n);
        JoinFirst(s[0], rest, sep);
      }
    }
  }

  lemma JoinFirst(c: char, parts: seq<string>, sep: char)
    requires parts != []
    ensures Join([[c] + parts[0]] + parts[1..], sep) == [c] + Join(parts, sep)
  {
    var more := [[c] + parts[0]] + parts[1..];
    assert more[1..] == parts[1..];
    if |parts| > 1 {
      assert [c] + parts[0] + [sep] + Join(parts[1..], sep) == [c] + (parts[0] + [sep] + Join(parts[1..], sep));
    }
  }

  /** Only the last part can hold the separator, and only when the limit is reached. */
  lemma {:induction false} SplitNParts(s: string, sep: char, n: nat, i: nat)
    requires n >= 1 && i < |SplitN(s, sep, n)| && (i < |SplitN(s, sep, n)| - 1 || |SplitN(s, sep, n)| < n)
    ensures sep !in SplitN(s, sep, n)[i]
    decreases |s|
  {
    if n > 1 && s != [] {
      if s[0] == sep {
        if i > 0 { SplitNParts(s[1..], sep, n - 1, i - 1); }
      } else {
        SplitNParts(s[1..], sep, n, i);
      }
    }
  }
}
