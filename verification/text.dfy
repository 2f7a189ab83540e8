/**
 * Byte-string helpers used by the wrapper: the white-space trimming that is applied to a
 * command's output (bytes.TrimSpace) and the split of a command line on the blank
 * character (strings.Split(cmd, " ")). Go strings and byte slices are both modelled as
 * `string`, one character per byte.
 */
module Text {

  /** White space recognised by the trimming: '\t', '\n', '\v', '\f', '\r' and ' '. */
  predicate IsSpace(c: char) {
    c == ' ' || ('\t' <= c <= '\r')
  }

  /** Neither the first nor the last character of `s` is white space. */
  predicate NoOuterSpace(s: string) {
    |s| > 0 ==> !IsSpace(s[0]) && !IsSpace(s[|s| - 1])
  }

  /** `r` occurs in `s` at position `i` with nothing but white space around it. */
  predicate PaddedBy(s: string, r: string, i: int) {
    0 <= i && i + |r| <= |s| &&
    (forall k :: 0 <= k < i ==> IsSpace(s[k])) &&
    (forall k :: 0 <= k < |r| ==> s[i + k] == r[k]) &&
    (forall k :: i + |r| <= k < |s| ==> IsSpace(s[k]))
  }

  /** The number of white-space characters `s` starts with. */
  function Start(s: string): (n: nat)
    ensures n <= |s|
    ensures forall k :: 0 <= k < n ==> IsSpace(s[k])
    ensures n < |s| ==> !IsSpace(s[n])
  {
    if |s| > 0 && IsSpace(s[0]) then 1 + Start(s[1..]) else 0
  }

  /** The length of `s` without the white space it ends with. */
  function End(s: string): (n: nat)
    ensures n <= |s|
    ensures forall k :: n <= k < |s| ==> IsSpace(s[k])
    ensures n > 0 ==> !IsSpace(s[n - 1])
  {
    if |s| > 0 && IsSpace(s[|s| - 1]) then End(s[..|s| - 1]) else |s|
  }

  /** bytes.TrimSpace: the text of `s` without its leading and trailing white space. */
  function TrimSpace(s: string): (r: string)
    ensures NoOuterSpace(r)
    ensures exists i :: PaddedBy(s, r, i)
  {
    var i := Start(s);
    if i == |s| then
      assert PaddedBy(s, [], 0);
      []
    else
      var r := s[i..End(s)];
      assert PaddedBy(s, r, i);
      r
  }

  /** Any text without outer white space that is padded by white space in `s` is what TrimSpace returns. */
  lemma {:induction false} TrimSpaceUnique(s: string, r: string, i: int)
    requires PaddedBy(s, r, i) && NoOuterSpace(r)
    ensures TrimSpace(s) == r
  {
    var start, end := Start(s), End(s);
    if |r| == 0 {
      // s is all white space.
      assert start == |s|;
    } else {
      // r starts at the first non-space character of s and ends after the last one.
      assert s[i] == r[0] && s[i + |r| - 1] == r[|r| - 1];
      assert start == i;
      assert end == i + |r|;
      assert s[start..end] == r;
    }
  }

  /** Trimming text that is already trimmed changes nothing. */
  lemma {:induction false} TrimSpaceOfTrimmed(s: string)
    requires NoOuterSpace(s)
    ensures TrimSpace(s) == s
  {
    assert PaddedBy(s, s, 0) by { assert s[..0] == [] && s[|s|..] == [] && s[0..|s|] == s; }
    TrimSpaceUnique(s, s, 0);
  }

  /** Trimming is idempotent. */
  lemma {:induction false} TrimSpaceIdempotent(s: string)
    ensures TrimSpace(TrimSpace(s)) == TrimSpace(s)
  {
    TrimSpaceOfTrimmed(TrimSpace(s));
  }

  /** strings.Split(s, " "): the pieces of `s` between single blank characters. */
  function Split(s: string): (pieces: seq<string>)
    ensures |pieces| >= 1
    ensures forall k :: 0 <= k < |pieces| ==> ' ' !in pieces[k]
  {
    if s == [] then [""]
    else
      var rest := Split(s[1..]);
      if s[0] == ' ' then [""] + rest
      else [[s[0]] + rest[0]] + rest[1..]
  }

  /** strings.Join(pieces, " "). */
  function Join(pieces: seq<string>): string
    requires |pieces| >= 1
  {
    if |pieces| == 1 then pieces[0] else pieces[0] + " " + Join(pieces[1..])
  }

  /** Joining the pieces of a split with blanks gives back the original text. */
  lemma {:induction false} JoinSplit(s: string)
    ensures Join(Split(s)) == s
  {
    if s != [] {
      var rest := Split(s[1..]);
      JoinSplit(s[1..]);
      if s[0] == ' ' {
        var pieces := [""] + rest;
        assert Split(s) == pieces && pieces[1..] == rest;
        assert Join(pieces) == "" + " " + Join(rest);
      } else {
        assert Split(s) == [[s[0]] + rest[0]] + rest[1..];
        JoinGlue([s[0]], rest);
      }
      assert s == [s[0]] + s[1..];
    }
  }

  /** Prefixing the first piece prefixes the joined text. */
  lemma {:induction false} JoinGlue(p: string, pieces: seq<string>)
    requires |pieces| >= 1
    ensures Join([p + pieces[0]] + pieces[1..]) == p + Join(pieces)
  {
    var glued := [p + pieces[0]] + pieces[1..];
    if |pieces| == 1 {
      assert glued == [p + pieces[0]];
    } else {
      assert glued[1..] == pieces[1..];
      assert Join(glued) == (p + pieces[0]) + " " + Join(pieces[1..]);
    }
  }

  /** Splitting `p + t`, where `p` has no blank, glues `p` onto the first piece of `t`. */
  lemma {:induction false} SplitBlankFreePrefix(p: string, t: string)
    requires ' ' !in p
    ensures Split(p + t) == [p + Split(t)[0]] + Split(t)[1..]
  {
    if p != [] {
      SplitBlankFreePrefix(p[1..], t);
      assert (p + t)[0] == p[0] != ' ';
      assert (p + t)[1..] == p[1..] + t;
      var rest := Split(p[1..] + t);
      assert Split(p + t) == [[p[0]] + rest[0]] + rest[1..];
      assert [p[0]] + (p[1..] + Split(t)[0]) == p + Split(t)[0];
    } else {
      assert p + t == t && p + Split(t)[0] == Split(t)[0];
      assert Split(t) == [Split(t)[0]] + Split(t)[1..];
    }
  }

  /** Splitting the blank-joined pieces gives back the pieces, when none of them has a blank. */
  lemma {:induction false} SplitJoin(pieces: seq<string>)
    requires |pieces| >= 1
    requires forall k :: 0 <= k < |pieces| ==> ' ' !in pieces[k]
    ensures Split(Join(pieces)) == pieces
  {
    if |pieces| == 1 {
      SplitBlankFreePrefix(pieces[0], "");
      assert Split("") == [""];
      assert pieces[0] + "" == pieces[0];
      assert Join(pieces) == pieces[0];
    } else {
      var tail := Join(pieces[1..]);
      SplitJoin(pieces[1..]);
      SplitBlankFreePrefix(pieces[0], " " + tail);
      assert Split(" " + tail) == [""] + Split(tail) by {
        assert (" " + tail)[1..] == tail;
      }
      assert Join(pieces) == pieces[0] + (" " + tail);
      assert pieces[0] + "" == pieces[0];
      assert Split(Join(pieces)) == [pieces[0]] + Split(tail);
      assert pieces == [pieces[0]] + pieces[1..];
    }
  }
}
