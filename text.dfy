/** The Python string operations the pipeline relies on: slicing, `str.split`
    with a separator and `str.join`. */
module Text {

  /** `s.index(c)`: the position of the first occurrence of `c`. */
  function IndexOf(s: string, c: char): (i: nat)
    requires c in s
    ensures i < |s| && s[i] == c
    ensures c !in s[..i]
  {
    if s[0] == c then 0
    else
      var j := IndexOf(s[1..], c);
      assert s[..j + 1] == [s[0]] + s[1..][..j];
      j + 1
  }

  /** Any position holding `c` with no `c` before it is the one `IndexOf` finds. */
  lemma IndexOfFirst(s: string, c: char, i: nat)
    requires i < |s| && s[i] == c && c !in s[..i]
    ensures IndexOf(s, c) == i
  {
  }

  /** `s.split(sep)` for a one-character separator: the pieces between separators,
      empty pieces included; a string without `sep` is its own single piece. */
  function Split(s: string, sep: char): (parts: seq<string>)
    ensures |parts| >= 1
    ensures forall k :: 0 <= k < |parts| ==> sep !in parts[k]
    decreases |s|
  {
    if sep !in s then [s]
    else
      var i := IndexOf(s, sep);
      [s[..i]] + Split(s[i + 1..], sep)
  }

  /** The second piece of `pre,mid,post` (with `sep` for the commas) is `mid`. */
  lemma SplitSecondOf(pre: string, mid: string, post: string, sep: char)
    requires sep !in pre && sep !in mid
    ensures Split(pre + [sep] + mid + [sep] + post, sep)[1] == mid
  {
    var s := pre + [sep] + mid + [sep] + post;
    assert s[|pre|] == sep && s[..|pre|] == pre;
    IndexOfFirst(s, sep, |pre|);
    var tail := s[|pre| + 1..];
    assert tail == mid + [sep] + post;
    assert tail[|mid|] == sep && tail[..|mid|] == mid;
    IndexOfFirst(tail, sep, |mid|);
  }

  /** `sep.join(parts)`. */
  function Join(parts: seq<string>, sep: string): string
  {
    if |parts| == 0 then ""
    else if |parts| == 1 then parts[0]
    else parts[0] + sep + Join(parts[1..], sep)
  }

  /** Splitting loses nothing: joining the pieces with the separator gives the string back. */
  lemma {:induction false} JoinSplit(s: string, sep: char)
    ensures Join(Split(s, sep), [sep]) == s
    decreases |s|
  {
    if sep in s {
      var i := IndexOf(s, sep);
      var tail := s[i + 1..];
      JoinSplit(tail, sep);
      var parts := Split(s, sep);
      assert parts == [s[..i]] + Split(tail, sep);
      assert parts[1..] == Split(tail, sep);
      assert s == s[..i] + [sep] + tail;
    }
  }

  /** The piece `s.split(sep)[1]` of a string holding `sep` is the text that runs from
      just after the first `sep` up to the second `sep` or to the end, untrimmed. */
  lemma SecondPiece(s: string, sep: char)
    requires sep in s
    ensures |Split(s, sep)| >= 2
    ensures var i := IndexOf(s, sep); var p := Split(s, sep)[1];
      && i + 1 + |p| <= |s|
      && s[i + 1..i + 1 + |p|] == p
      && sep !in p
      && (i + 1 + |p| == |s| || s[i + 1 + |p|] == sep)
  {
    var i := IndexOf(s, sep);
    var tail := s[i + 1..];
    assert Split(s, sep) == [s[..i]] + Split(tail, sep);
    if sep in tail {
      var j := IndexOf(tail, sep);
      assert Split(tail, sep)[0] == tail[..j];
    }
  }
}
