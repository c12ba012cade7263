/** String helpers shared by the message templates: double-quoting,
    joining a list with single spaces (how a list of options is printed
    between brackets), and substring occurrence. */
module Text {

  /** Wraps a string in double quotes. Escaping of quotes, backslashes and
      non-printable characters inside `s` is not modelled. */
  function Quote(s: string): (r: string)
    ensures |r| == |s| + 2 && r[0] == '"' && r[|r| - 1] == '"'
    ensures r[1..|r| - 1] == s
  {
    "\"" + s + "\""
  }

  /** Recovers the contents of a doubly-quoted string, if it is one. */
  function Unquote(r: string): (s: string)
  {
    if |r| >= 2 && r[0] == '"' && r[|r| - 1] == '"' then r[1..|r| - 1] else r
  }

  lemma UnquoteQuote(s: string)
    ensures Unquote(Quote(s)) == s
  {
  }

  /** The items separated by single spaces. */
  function SpaceJoin(items: seq<string>): string
  {
    if items == [] then ""
    else if |items| == 1 then items[0]
    else items[0] + " " + SpaceJoin(items[1..])
  }

  /** Cuts a string at every space; the result always has one more piece
      than the string has spaces, so it is never empty. */
  function SplitSpaces(s: string): (pieces: seq<string>)
    ensures |pieces| >= 1
  {
    if s == [] then [""]
    else
      var rest := SplitSpaces(s[1..]);
      if s[0] == ' ' then [""] + rest
      else [[s[0]] + rest[0]] + rest[1..]
  }

  predicate NoSpace(s: string) {
    forall i :: 0 <= i < |s| ==> s[i] != ' '
  }

  /** Splitting a piece without spaces followed by a tail prepends the
      piece to the first piece of the tail. */
  lemma {:induction false} SplitAfterWord(w: string, t: string)
    requires NoSpace(w)
    ensures SplitSpaces(w + t) == [w + SplitSpaces(t)[0]] + SplitSpaces(t)[1..]
  {
    var ts := SplitSpaces(t);
    if w == [] {
      assert w + t == t && w + ts[0] == ts[0];
      assert [ts[0]] + ts[1..] == ts;
    } else {
      assert (w + t)[0] == w[0] && (w + t)[1..] == w[1..] + t;
      SplitAfterWord(w[1..], t);
      var rest := SplitSpaces(w[1..] + t);
      assert rest[0] == w[1..] + ts[0] && rest[1..] == ts[1..];
      assert [w[0]] + (w[1..] + ts[0]) == w + ts[0];
    }
  }

  /** Splitting undoes joining, provided there is at least one item and no
      item contains a space. */
  lemma {:induction false} SplitSpaceJoin(items: seq<string>)
    requires |items| >= 1
    requires forall k :: 0 <= k < |items| ==> NoSpace(items[k])
    ensures SplitSpaces(SpaceJoin(items)) == items
  {
    if |items| == 1 {
      SplitAfterWord(items[0], "");
      assert items[0] + "" == items[0];
    } else {
      var tail := SpaceJoin(items[1..]);
      SplitSpaceJoin(items[1..]);
      var spaced := " " + tail;
      assert spaced[0] == ' ' && spaced[1..] == tail;
      var pieces := SplitSpaces(spaced);
      assert pieces == [""] + items[1..];
      assert pieces[0] == "" && pieces[1..] == items[1..];
      assert SpaceJoin(items) == items[0] + spaced;
      SplitAfterWord(items[0], spaced);
      assert items[0] + "" == items[0];
      assert items == [items[0]] + items[1..];
    }
  }

  /** Splitting cuts at every space and nowhere else: no piece contains a
      space, and joining the pieces with single spaces gives the string
      back. */
  lemma {:induction false} SpaceJoinSplit(s: string)
    ensures var pieces := SplitSpaces(s);
      && (forall k :: 0 <= k < |pieces| ==> NoSpace(pieces[k]))
      && SpaceJoin(pieces) == s
  {
    if s != [] {
      var rest := SplitSpaces(s[1..]);
      SpaceJoinSplit(s[1..]);
      if s[0] == ' ' {
        var pieces := [""] + rest;
        assert pieces[1..] == rest;
        assert SpaceJoin(pieces) == "" + " " + SpaceJoin(rest);
        assert s == [s[0]] + s[1..];
      } else {
        var first := [s[0]] + rest[0];
        var pieces := [first] + rest[1..];
        assert NoSpace(first) by {
          assert NoSpace(rest[0]);
          forall i | 0 <= i < |first|
            ensures first[i] != ' '
          {
            if i > 0 {
              assert first[i] == rest[0][i - 1];
            }
          }
        }
        forall k | 0 <= k < |pieces|
          ensures NoSpace(pieces[k])
        {
          if k > 0 {
            assert pieces[k] == rest[k];
          }
        }
        if |rest| == 1 {
          assert SpaceJoin(pieces) == first;
        } else {
          assert pieces[1..] == rest[1..];
          assert SpaceJoin(pieces) == first + " " + SpaceJoin(rest[1..]);
          assert SpaceJoin(rest) == rest[0] + " " + SpaceJoin(rest[1..]);
        }
        assert s == [s[0]] + s[1..];
      }
    }
  }

  /** `t` occurs in `s` as a contiguous piece. */
  ghost predicate Occurs(t: string, s: string) {
    exists k :: OccursAt(t, s, k)
  }

  /** `t` occurs in `s` starting at position `k`. */
  predicate OccursAt(t: string, s: string, k: int) {
    0 <= k <= |s| - |t| && s[k..k + |t|] == t
  }

  /** Two strings that agree once framed the same way are equal. */
  lemma CancelFrame(p: string, a: string, b: string, q: string)
    requires p + a + q == p + b + q
    ensures a == b
  {
    assert |a| == |b|;
    assert a == (p + a + q)[|p|..|p| + |a|];
    assert b == (p + b + q)[|p|..|p| + |b|];
  }
}
