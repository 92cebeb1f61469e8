/**
 Newline-terminated lines of a byte stream, and what cutting the stream into chunks
 does to them. A byte is written as a character.
 */
module Lines {
  type Bytes = string

  // Position of the first newline, or -1.
  function IndexNewline(s: Bytes): (i: int)
    ensures -1 <= i < |s|
    ensures i >= 0 ==> s[i] == '\n' && '\n' !in s[..i]
    ensures i < 0 ==> '\n' !in s
  {
    if s == [] then -1
    else if s[0] == '\n' then 0
    else
      var i := IndexNewline(s[1..]);
      assert s == [s[0]] + s[1..];
      if i < 0 then -1
      else
        assert s[..i + 1] == [s[0]] + s[1..][..i];
        i + 1
  }

  // The complete lines, without their newline.
  function Complete(s: Bytes): seq<Bytes> {
    var i := IndexNewline(s);
    if i < 0 then [] else [s[..i]] + Complete(s[i + 1..])
  }

  // What follows the last newline.
  function Rest(s: Bytes): (r: Bytes)
    ensures '\n' !in r
  {
    var i := IndexNewline(s);
    if i < 0 then s else Rest(s[i + 1..])
  }

  function Join(lines: seq<Bytes>): Bytes {
    if lines == [] then [] else lines[0] + "\n" + Join(lines[1..])
  }

  lemma IndexUnique(s: Bytes, i: nat)
    requires i < |s| && s[i] == '\n' && '\n' !in s[..i]
    ensures IndexNewline(s) == i
  {
    var j := IndexNewline(s);
    assert s[i] in s;
  }

  lemma CompleteCons(s: Bytes)
    requires IndexNewline(s) >= 0
    ensures var i := IndexNewline(s);
            && Complete(s) == [s[..i]] + Complete(s[i + 1..]) && Rest(s) == Rest(s[i + 1..])
            && Join(Complete(s)) == s[..i] + "\n" + Join(Complete(s[i + 1..]))
            && '\n' !in s[..i]
  {
    assert Complete(s)[1..] == Complete(s[IndexNewline(s) + 1..]);
  }

  // Splitting loses nothing...
  lemma {:induction false} SplitThenJoin(s: Bytes)
    ensures Join(Complete(s)) + Rest(s) == s
  {
    hide Complete, Join, Rest;
    var i := IndexNewline(s);
    if i >= 0 {
      var tail := s[i + 1..];
      SplitThenJoin(tail);
      CompleteCons(s);
      Rebuild(s, i, Join(Complete(tail)), Rest(tail));
    } else {
      NoLines(s);
    }
  }

  lemma NoLines(s: Bytes)
    requires IndexNewline(s) < 0
    ensures Complete(s) == [] && Join([]) == [] && Rest(s) == s
  {
  }

  lemma Rebuild(s: Bytes, i: nat, x: Bytes, y: Bytes)
    requires i < |s| && s[i] == '\n' && x + y == s[i + 1..]
    ensures s[..i] + "\n" + x + y == s
  {
    assert s[..i] + "\n" + x + y == s[..i] + "\n" + (x + y);
  }

  lemma {:induction false} LinesHoldNoNewline(s: Bytes)
    ensures forall k :: 0 <= k < |Complete(s)| ==> '\n' !in Complete(s)[k]
  {
    var i := IndexNewline(s);
    if i >= 0 {
      LinesHoldNoNewline(s[i + 1..]);
    }
  }

  // ...and finds any lines that were put together.
  lemma {:induction false} JoinThenSplit(lines: seq<Bytes>, tail: Bytes)
    requires '\n' !in tail && forall k :: 0 <= k < |lines| ==> '\n' !in lines[k]
    ensures Complete(Join(lines) + tail) == lines && Rest(Join(lines) + tail) == tail
  {
    if lines == [] {
      assert Join(lines) + tail == tail;
    } else {
      var s := Join(lines) + tail;
      assert s == lines[0] + "\n" + (Join(lines[1..]) + tail);
      assert s[..|lines[0]|] == lines[0];
      IndexUnique(s, |lines[0]|);
      assert s[|lines[0]| + 1..] == Join(lines[1..]) + tail;
      JoinThenSplit(lines[1..], tail);
    }
  }

  // Splitting a stream in two pieces: the second sees the rest of the first.
  lemma {:induction false} SplitConcat(a: Bytes, b: Bytes)
    ensures Complete(a + b) == Complete(a) + Complete(Rest(a) + b)
    ensures Rest(a + b) == Rest(Rest(a) + b)
  {
    var i := IndexNewline(a);
    if i >= 0 {
      assert (a + b)[..i] == a[..i];
      IndexUnique(a + b, i);
      assert (a + b)[i + 1..] == a[i + 1..] + b;
      SplitConcat(a[i + 1..], b);
      assert Complete(a) == [a[..i]] + Complete(a[i + 1..]);
      assert Complete(a + b) == [a[..i]] + (Complete(a[i + 1..]) + Complete(Rest(a[i + 1..]) + b));
    }
  }
}
