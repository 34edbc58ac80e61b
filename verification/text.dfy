/** The two Python string operations the task-board service relies on:
    `str.strip()` with no argument, and `str.split(sep, maxsplit)` with a
    one-character separator. */
module Text {
  import opened Options

  /** The characters for which Python's `str.isspace()` holds, i.e. the
      characters `str.strip()` removes. */
  predicate IsSpace(c: char) {
    || ('\t' <= c <= '\r')
    || ('\U{1C}' <= c <= '\U{1F}')
    || c == ' '
    || c == '\U{85}'
    || c == '\U{A0}'
    || c == '\U{1680}'
    || ('\U{2000}' <= c <= '\U{200A}')
    || c == '\U{2028}'
    || c == '\U{2029}'
    || c == '\U{202F}'
    || c == '\U{205F}'
    || c == '\U{3000}'
  }

  /** Neither the first nor the last character is whitespace. */
  predicate NoSurroundingSpace(s: string) {
    |s| == 0 || (!IsSpace(s[0]) && !IsSpace(s[|s| - 1]))
  }

  predicate StartsWith(s: string, prefix: string) {
    |prefix| <= |s| && s[..|prefix|] == prefix
  }

  /** `s` with its leading whitespace removed. */
  function TrimStart(s: string): (r: string)
    ensures |r| <= |s| && r == s[|s| - |r|..]
    ensures forall k :: 0 <= k < |s| - |r| ==> IsSpace(s[k])
    ensures |r| == 0 || !IsSpace(r[0])
  {
    if |s| > 0 && IsSpace(s[0]) then TrimStart(s[1..]) else s
  }

  /** `s` with its trailing whitespace removed. */
  function TrimEnd(s: string): (r: string)
    ensures |r| <= |s| && r == s[..|r|]
    ensures forall k :: |r| <= k < |s| ==> IsSpace(s[k])
    ensures |r| == 0 || !IsSpace(r[|r| - 1])
  {
    if |s| > 0 && IsSpace(s[|s| - 1]) then TrimEnd(s[..|s| - 1]) else s
  }

  /** `r` sits at position `i` of `s` with nothing but whitespace around it. */
  predicate PaddedAt(s: string, r: string, i: nat) {
    && i + |r| <= |s|
    && r == s[i..i + |r|]
    && (forall k :: 0 <= k < i ==> IsSpace(s[k]))
    && (forall k :: i + |r| <= k < |s| ==> IsSpace(s[k]))
  }

  /** Python's `s.strip()`: the result is a slice of `s`, everything cut off
      on either side is whitespace, and the result itself has no surrounding
      whitespace. */
  function Strip(s: string): (r: string)
    ensures |r| <= |s|
    ensures NoSurroundingSpace(r)
    ensures exists i :: PaddedAt(s, r, i)
  {
    TrimmedIsPadded(s);
    TrimEnd(TrimStart(s))
  }

  lemma TrimmedIsPadded(s: string)
    ensures PaddedAt(s, TrimEnd(TrimStart(s)), |s| - |TrimStart(s)|)
  {
    PaddedBetween(s, TrimStart(s), TrimEnd(TrimStart(s)));
  }

  /** Cutting whitespace from the front and then from the back leaves a
      padded slice. */
  lemma PaddedBetween(s: string, t: string, r: string)
    requires |t| <= |s| && t == s[|s| - |t|..]
    requires forall k :: 0 <= k < |s| - |t| ==> IsSpace(s[k])
    requires |r| <= |t| && r == t[..|r|]
    requires forall k :: |r| <= k < |t| ==> IsSpace(t[k])
    ensures PaddedAt(s, r, |s| - |t|)
  {
    var i := |s| - |t|;
    assert r == s[i..i + |r|];
    forall k | i + |r| <= k < |s|
      ensures IsSpace(s[k])
    {
      assert s[k] == t[k - i];
    }
  }

  /** A string without surrounding whitespace is left alone by `strip()`. */
  lemma StripKeeps(s: string)
    requires NoSurroundingSpace(s)
    ensures Strip(s) == s
  {
  }

  /** `strip()` is idempotent. */
  lemma StripIdempotent(s: string)
    ensures Strip(Strip(s)) == Strip(s)
  {
    StripKeeps(Strip(s));
  }

  /** A line without surrounding whitespace, followed by a newline
      terminator, strips back to itself. */
  lemma StripTerminated(s: string)
    requires NoSurroundingSpace(s)
    ensures Strip(s + "\n") == s
  {
    assert TrimEnd(s + "\n") == TrimEnd(s) by {
      assert (s + "\n")[..|s|] == s;
    }
    if |s| == 0 {
      assert s + "\n" == "\n";
    } else {
      assert TrimStart(s + "\n") == s + "\n";
    }
  }

  /** Python's `s.find(c)`: the first position of `c` in `s`, if any. */
  function IndexOf(s: string, c: char): (r: Option<nat>)
    ensures r.None? <==> c !in s
    ensures r.Some? ==> r.value < |s| && s[r.value] == c && c !in s[..r.value]
  {
    if |s| == 0 then None
    else if s[0] == c then Some(0)
    else
      match IndexOf(s[1..], c)
      case None => None
      case Some(k) =>
        assert s[..k + 1] == [s[0]] + s[1..][..k];
        Some(k + 1)
  }

  /** The inverse of `Split`: Python's `sep.join(parts)` for a one-character
      separator. */
  function Join(parts: seq<string>, c: char): string
    requires |parts| >= 1
  {
    if |parts| == 1 then parts[0] else parts[0] + [c] + Join(parts[1..], c)
  }

  /** What `s.split(c, maxsplit)` returns: at least one and at most
      `maxsplit + 1` parts that join back to `s`; no part but the last holds
      `c`, and the last holds `c` only if all `maxsplit` cuts were made. */
  predicate SplitParts(s: string, c: char, maxsplit: nat, parts: seq<string>)
  {
    && 1 <= |parts| <= maxsplit + 1
    && Join(parts, c) == s
    && (forall k :: 0 <= k < |parts| - 1 ==> c !in parts[k])
    && (|parts| <= maxsplit ==> c !in parts[|parts| - 1])
  }

  /** Python's `s.split(c, maxsplit)`: cut at the first `maxsplit`
      occurrences of `c`. Joining the parts gives `s` back, no part but the
      last holds `c`, and the last holds `c` only if the split budget ran out. */
  function Split(s: string, c: char, maxsplit: nat): (parts: seq<string>)
    ensures SplitParts(s, c, maxsplit, parts)
    decreases maxsplit
  {
    if maxsplit == 0 then [s]
    else
      match IndexOf(s, c)
      case None =>
        SplitWhole(s, c, maxsplit);
        [s]
      case Some(p) =>
        var rest := Split(s[p + 1..], c, maxsplit - 1);
        var parts := [s[..p]] + rest;
        SplitAt(s, c, p, maxsplit, rest, parts);
        parts
  }

  /** Without a separator the text is its only part. */
  lemma SplitWhole(s: string, c: char, maxsplit: nat)
    requires c !in s
    ensures SplitParts(s, c, maxsplit, [s])
  {
  }

  /** The parts of `s` cut at its first separator, at `p`: the head
      before it and the parts of the text after it. */
  lemma SplitAt(s: string, c: char, p: nat, maxsplit: nat, rest: seq<string>, parts: seq<string>)
    requires p < |s| && s[p] == c && c !in s[..p] && maxsplit >= 1
    requires SplitParts(s[p + 1..], c, maxsplit - 1, rest)
    requires parts == [s[..p]] + rest
    ensures SplitParts(s, c, maxsplit, parts)
  {
    SplitPrepend(s[..p], c, s[p + 1..], rest);
    assert s == s[..p] + [c] + s[p + 1..];
  }

  /** Joining a part in front of a non-empty list of parts. */
  lemma JoinCons(head: string, rest: seq<string>, c: char)
    requires |rest| >= 1
    ensures Join([head] + rest, c) == head + [c] + Join(rest, c)
  {
    assert ([head] + rest)[1..] == rest;
  }

  lemma JoinThree(parts: seq<string>, c: char)
    requires |parts| == 3
    ensures Join(parts, c) == parts[0] + [c] + (parts[1] + [c] + parts[2])
  {
    var tail := parts[1..];
    assert tail[1..] == [parts[2]];
    assert Join(tail, c) == parts[1] + [c] + parts[2];
    assert Join(parts, c) == parts[0] + [c] + Join(tail, c);
  }

  /** Putting a separator-free head in front of the parts of the tail keeps
      every property `Split` promises. */
  lemma SplitPrepend(head: string, c: char, tail: string, rest: seq<string>)
    requires c !in head && |rest| >= 1 && Join(rest, c) == tail
    requires forall k :: 0 <= k < |rest| - 1 ==> c !in rest[k]
    ensures Join([head] + rest, c) == head + [c] + tail
    ensures forall k :: 0 <= k < |rest| ==> c !in ([head] + rest)[k]
    ensures ([head] + rest)[|rest|] == rest[|rest| - 1]
  {
    JoinCons(head, rest, c);
  }

  /** The first occurrence is the one with no earlier occurrence. */
  lemma IndexOfAt(s: string, c: char, p: nat)
    requires p < |s| && s[p] == c && c !in s[..p]
    ensures IndexOf(s, c) == Some(p)
  {
    assert c in s;
  }

  /** One step of a split: cut at the first separator and split the rest. */
  lemma SplitStep(head: string, c: char, tail: string, maxsplit: nat)
    requires c !in head && maxsplit > 0
    ensures Split(head + [c] + tail, c, maxsplit) == [head] + Split(tail, c, maxsplit - 1)
  {
    var s := head + [c] + tail;
    assert s[..|head|] == head;
    IndexOfAt(s, c, |head|);
    assert s[|head| + 1..] == tail;
  }

  /** Text without the separator does not split. */
  lemma SplitNone(s: string, c: char, maxsplit: nat)
    requires c !in s
    ensures Split(s, c, maxsplit) == [s]
  {
    if maxsplit > 0 {
      assert IndexOf(s, c).None?;
    }
  }

  /** Cutting at the first separator is unique. */
  lemma CutUnique(s: string, sep: char, a: string, b: string, c: string, d: string)
    requires sep !in a && sep !in c
    requires s == a + [sep] + b && s == c + [sep] + d
    ensures a == c && b == d
  {
    assert s[|a|] == sep && s[|c|] == sep;
    assert forall k :: 0 <= k < |a| ==> s[k] == a[k];
    assert forall k :: 0 <= k < |c| ==> s[k] == c[k];
    assert |a| == |c|;
    assert a == s[..|a|] && c == s[..|c|];
    assert b == s[|a| + 1..] && d == s[|c| + 1..];
  }
}
