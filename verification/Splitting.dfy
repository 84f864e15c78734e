/** Text cut at a separator and put together again. */
module Splitting {
  import opened Ordering

  /** The parts of a text once one more character stands before it. */
  function Prepend(sep: char, c: char, parts: seq<string>): seq<string>
    requires |parts| >= 1
  {
    if c == sep then [""] + parts else [[c] + parts[0]] + parts[1..]
  }

  /** `strings.Split` for a separator of one character. */
  function SplitOn(sep: char, s: string): (r: seq<string>)
    ensures |r| >= 1
  {
    if s == [] then [""] else Prepend(sep, s[0], SplitOn(sep, s[1..]))
  }

  /** `strings.Join`. */
  function JoinOn(sep: char, c: seq<string>): string
    requires |c| >= 1
  {
    if |c| == 1 then c[0] else c[0] + [sep] + JoinOn(sep, c[1..])
  }

  predicate Without(sep: char, c: seq<string>) { forall i | 0 <= i < |c| :: sep !in c[i] }

  lemma {:induction false} SplitWithout(sep: char, s: string)
    ensures Without(sep, SplitOn(sep, s))
  {
    if s != [] { SplitWithout(sep, s[1..]); }
  }

  lemma JoinCons(sep: char, first: string, rest: seq<string>)
    requires |rest| >= 1
    ensures JoinOn(sep, [first] + rest) == first + ([sep] + JoinOn(sep, rest))
  {
    assert ([first] + rest)[1..] == rest;
    Assoc(first, [sep], JoinOn(sep, rest));
  }

  lemma JoinPrepend(sep: char, c: char, parts: seq<string>)
    requires |parts| >= 1
    ensures JoinOn(sep, Prepend(sep, c, parts)) == [c] + JoinOn(sep, parts)
  {
    if c == sep {
      JoinCons(sep, "", parts);
    } else if |parts| > 1 {
      JoinCons(sep, [c] + parts[0], parts[1..]);
      JoinCons(sep, parts[0], parts[1..]);
      assert [parts[0]] + parts[1..] == parts;
      Assoc([c], parts[0], [sep] + JoinOn(sep, parts[1..]));
    }
  }

  lemma {:induction false} JoinSplit(sep: char, s: string)
    ensures JoinOn(sep, SplitOn(sep, s)) == s
  {
    if s != [] {
      JoinSplit(sep, s[1..]);
      JoinPrepend(sep, s[0], SplitOn(sep, s[1..]));
      assert [s[0]] + s[1..] == s;
    }
  }

  lemma {:induction false} SplitHead(sep: char, first: string, tail: string)
    requires sep !in first
    ensures SplitOn(sep, first + ([sep] + tail)) == [first] + SplitOn(sep, tail)
    ensures SplitOn(sep, first) == [first]
  {
    if first == [] {
      assert first + ([sep] + tail) == [sep] + tail;
      assert ([sep] + tail)[1..] == tail;
    } else {
      SplitHead(sep, first[1..], tail);
      assert (first + ([sep] + tail))[1..] == first[1..] + ([sep] + tail);
      assert [first[0]] + first[1..] == first;
    }
  }

  lemma {:induction false} SplitJoin(sep: char, c: seq<string>)
    requires |c| >= 1 && Without(sep, c)
    ensures SplitOn(sep, JoinOn(sep, c)) == c
  {
    if |c| == 1 {
      SplitHead(sep, c[0], "");
      assert [c[0]] == c;
    } else {
      SplitJoin(sep, c[1..]);
      SplitHead(sep, c[0], JoinOn(sep, c[1..]));
      assert [c[0]] + c[1..] == c;
      JoinCons(sep, c[0], c[1..]);
    }
  }

  /** The first part, read off the text. */
  lemma FirstPart(sep: char, text: string, part: string)
    requires sep !in part
    ensures SplitOn(sep, text)[0] == part <==> text == part || part + [sep] <= text
    ensures |SplitOn(sep, text)| > 1 && SplitOn(sep, text)[0] == part <==> part + [sep] <= text
  {
    var parts := SplitOn(sep, text);
    JoinSplit(sep, text);
    if part + [sep] <= text {
      var tail := text[|part| + 1..];
      assert text == part + ([sep] + tail);
      SplitHead(sep, part, tail);
    } else {
      SplitHead(sep, part, "");
      if |parts| > 1 {
        assert [parts[0]] + parts[1..] == parts;
        JoinCons(sep, parts[0], parts[1..]);
        assert parts[0] + [sep] <= text;
      }
    }
  }
}
