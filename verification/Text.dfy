/** Searching, splitting and joining text. */
module Text {
  import opened Base

  /** The first position of a character. */
  function Find(s: string, c: char): (r: Option<nat>)
    ensures r.Some? ==> r.value < |s| && s[r.value] == c && c !in s[..r.value]
    ensures r.None? ==> c !in s
  {
    if s == [] then None
    else if s[0] == c then Some(0)
    else
      match Find(s[1..], c)
      case None => None
      case Some(i) =>
        assert s[..i + 1] == [s[0]] + s[1..][..i];
        Some(i + 1)
  }

  lemma {:induction false} FirstSeparator(front: string, c: char, back: string)
    requires c !in front
    ensures Find(front + [c] + back, c) == Some(|front|)
  {
    var s := front + [c] + back;
    assert s[|front|] == c && s[..|front|] == front;
  }

  /** The pieces between separators: always at least one, and none contains the separator. */
  function Split(s: string, sep: char): (r: seq<string>)
    ensures r != [] && forall i :: 0 <= i < |r| ==> sep !in r[i]
  {
    if s == [] then [[]]
    else
      var rest := Split(s[1..], sep);
      if s[0] == sep then [[]] + rest else [[s[0]] + rest[0]] + rest[1..]
  }

  function Join(parts: seq<string>, sep: char): string {
    if parts == [] then ""
    else if |parts| == 1 then parts[0]
    else parts[0] + [sep] + Join(parts[1..], sep)
  }

  lemma {:induction false} JoinSplit(s: string, sep: char)
    ensures Join(Split(s, sep), sep) == s
  {
    if s != [] {
      JoinSplit(s[1..], sep);
      var rest := Split(s[1..], sep);
      if s[0] == sep {
        assert Split(s, sep)[1..] == rest;
        assert Join(Split(s, sep), sep) == [] + [sep] + Join(rest, sep);
      } else {
        assert Split(s, sep)[1..] == rest[1..];
        if |rest| == 1 {
          assert Join(Split(s, sep), sep) == [s[0]] + rest[0];
        } else {
          assert Join(Split(s, sep), sep) == [s[0]] + rest[0] + [sep] + Join(rest[1..], sep);
          assert [s[0]] + rest[0] + [sep] + Join(rest[1..], sep) == [s[0]] + (rest[0] + [sep] + Join(rest[1..], sep));
        }
      }
    }
  }

  lemma {:induction false} SplitSegment(seg: string, sep: char, tail: string)
    requires sep !in seg
    ensures Split(seg, sep) == [seg]
    ensures Split(seg + [sep] + tail, sep) == [seg] + Split(tail, sep)
  {
    if seg == [] {
      assert ([] + [sep] + tail)[1..] == tail;
    } else {
      SplitSegment(seg[1..], sep, tail);
      var s := seg + [sep] + tail;
      assert s[1..] == seg[1..] + [sep] + tail;
      assert seg == [seg[0]] + seg[1..];
    }
  }

  /** Pieces without the separator survive joining and splitting. */
  lemma {:induction false} SplitJoin(parts: seq<string>, sep: char)
    requires parts != [] && forall i :: 0 <= i < |parts| ==> sep !in parts[i]
    ensures Split(Join(parts, sep), sep) == parts
  {
    if |parts| == 1 {
      SplitSegment(parts[0], sep, "");
    } else {
      SplitJoin(parts[1..], sep);
      SplitSegment(parts[0], sep, Join(parts[1..], sep));
    }
  }

  lemma {:induction false} JoinSnoc(parts: seq<string>, part: string, sep: char)
    requires parts != []
    ensures Join(parts + [part], sep) == Join(parts, sep) + [sep] + part
  {
    assert (parts + [part])[1..] == parts[1..] + [part];
    if |parts| > 1 {
      JoinSnoc(parts[1..], part, sep);
    }
  }
}
