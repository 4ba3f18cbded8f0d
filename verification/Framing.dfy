/**
 * How channel messages travel as text (src/serialization/serialization.ts, _write and
 * _readFromRawStream): one JSON document a line, with no newline inside it, read back by splitting each
 * data event on newlines and dropping the empty pieces.
 */
module Framing {
  import opened Prelude

  /** What _write puts on the stream: each message on a line of its own. */
  function Frame(lines: seq<string>): string {
    if lines == [] then [] else Frame(lines[..|lines| - 1]) + lines[|lines| - 1] + "\n"
  }

  /** Append a character to the last piece. */
  function ExtendLast(parts: seq<string>, c: char): seq<string>
    requires parts != []
  {
    parts[..|parts| - 1] + [parts[|parts| - 1] + [c]]
  }

  /** String.prototype.split on newlines. */
  function SplitLines(s: string): (parts: seq<string>)
    ensures |parts| >= 1
  {
    if s == [] then [""]
    else
      var parts, c := SplitLines(s[..|s| - 1]), s[|s| - 1];
      if c == '\n' then parts + [""] else ExtendLast(parts, c)
  }

  function NonEmpty(parts: seq<string>): seq<string> {
    if parts == [] then []
    else NonEmpty(parts[..|parts| - 1]) + (if parts[|parts| - 1] == "" then [] else [parts[|parts| - 1]])
  }

  /** The lines that one data event hands to the channels. */
  function ReadChunk(chunk: string): seq<string> { NonEmpty(SplitLines(chunk)) }

  predicate IsLine(s: string) { s != "" && forall i :: 0 <= i < |s| ==> s[i] != '\n' }

  lemma NonEmptySnoc(parts: seq<string>, last: string)
    ensures NonEmpty(parts + [last]) == NonEmpty(parts) + (if last == "" then [] else [last])
  {
  }

  /** Two lists of pieces whose text is adjacent: the last of one continues in the first of the other. */
  function Merge(pa: seq<string>, pb: seq<string>): seq<string>
    requires pa != [] && pb != []
  {
    pa[..|pa| - 1] + [pa[|pa| - 1] + pb[0]] + pb[1..]
  }

  lemma MergeExtend(pa: seq<string>, pb: seq<string>, c: char)
    requires pa != [] && pb != []
    ensures ExtendLast(Merge(pa, pb), c) == Merge(pa, ExtendLast(pb, c))
  {
    var front, last := pa[..|pa| - 1], pa[|pa| - 1];
    if |pb| == 1 {
      assert last + pb[0] + [c] == last + (pb[0] + [c]);
    } else {
      var m := Merge(pa, pb);
      assert m[..|m| - 1] == front + [last + pb[0]] + pb[1..|pb| - 1];
      assert ExtendLast(pb, c)[1..] == pb[1..|pb| - 1] + [pb[|pb| - 1] + [c]];
    }
  }

  lemma {:induction false} SplitAppend(a: string, b: string)
    ensures SplitLines(a + b) == Merge(SplitLines(a), SplitLines(b))
    decreases |b|
  {
    hide ExtendLast;
    var pa := SplitLines(a);
    if b == [] {
      assert a + b == a && pa[|pa| - 1] + "" == pa[|pa| - 1];
    } else {
      var front, c := b[..|b| - 1], b[|b| - 1];
      assert (a + b)[..|a + b| - 1] == a + front && (a + b)[|a + b| - 1] == c;
      SplitAppend(a, front);
      var pf := SplitLines(front);
      if c == '\n' {
        assert (pf + [""])[1..] == pf[1..] + [""];
      } else {
        MergeExtend(pa, pf, c);
      }
    }
  }

  lemma {:induction false} NonEmptyAppend(a: seq<string>, b: seq<string>)
    ensures NonEmpty(a + b) == NonEmpty(a) + NonEmpty(b)
    decreases |b|
  {
    if b == [] {
      assert a + b == a;
    } else {
      assert (a + b)[..|a + b| - 1] == a + b[..|b| - 1];
      NonEmptyAppend(a, b[..|b| - 1]);
    }
  }

  /** The last piece of a split is empty exactly when the text ends at a line boundary. */
  lemma SplitEnds(s: string)
    ensures var parts := SplitLines(s); parts[|parts| - 1] == "" <==> s == "" || s[|s| - 1] == '\n'
  {
  }

  lemma {:induction false} SplitStarts(s: string)
    ensures SplitLines(s)[0] == "" <==> s == "" || s[0] == '\n'
    decreases |s|
  {
    if |s| == 1 {
      assert s[..0] == [];
    } else if |s| > 1 {
      SplitStarts(s[..|s| - 1]);
      assert s[..|s| - 1][0] == s[0];
    }
  }

  /**
   * Two successive data events yield the same lines as one holding all of their text if and only if
   * the cut does not fall inside a line.
   */
  lemma CutIsHarmlessIffBetweenLines(a: string, b: string)
    ensures ReadChunk(a) + ReadChunk(b) == ReadChunk(a + b)
      <==> a == "" || b == "" || a[|a| - 1] == '\n' || b[0] == '\n'
  {
    hide SplitLines, NonEmpty;
    var pa, pb := SplitLines(a), SplitLines(b);
    SplitAppend(a, b);
    SplitEnds(a);
    SplitStarts(b);
    assert pa == pa[..|pa| - 1] + [pa[|pa| - 1]] && pb == [pb[0]] + pb[1..];
    NonEmptyMerge(pa[..|pa| - 1], pa[|pa| - 1], pb[0], pb[1..]);
  }

  /** Two adjacent pieces are one piece too many unless one of them is empty. */
  lemma NonEmptyMerge(front: seq<string>, last: string, first: string, rest: seq<string>)
    ensures NonEmpty(front + [last]) + NonEmpty([first] + rest) == NonEmpty(front + [last + first] + rest)
      <==> last == "" || first == ""
  {
    hide NonEmpty;
    var x, y := NonEmpty(front), NonEmpty(rest);
    NonEmptySnoc(front, last);
    NonEmptyAround([], first, rest);
    NonEmptyAround(front, last + first, rest);
    assert [] + [first] + rest == [first] + rest && [] + Keep(first) == Keep(first);
    Cancel(x, Keep(last), Keep(first), Keep(last + first), y);
    if last == "" { assert last + first == first; }
    if first == "" { assert last + first == last; }
  }

  lemma Cancel<T>(x: seq<T>, a: seq<T>, b: seq<T>, c: seq<T>, y: seq<T>)
    ensures x + a + (b + y) == x + c + y <==> a + b == c
  {
    var left, right := x + a + (b + y), x + c + y;
    assert left == x + (a + b) + y;
    if left == right {
      assert |a + b| == |c|;
      assert a + b == left[|x|..|x| + |c|] == right[|x|..|x| + |c|] == c;
    }
  }

  function Keep(piece: string): seq<string> { if piece == "" then [] else [piece] }

  lemma NonEmptyAround(before: seq<string>, piece: string, after: seq<string>)
    ensures NonEmpty(before + [piece] + after) == NonEmpty(before) + Keep(piece) + NonEmpty(after)
    ensures NonEmpty([]) == []
  {
    NonEmptyAppend(before + [piece], after);
    NonEmptySnoc(before, piece);
  }

  /** Whole lines, however they are grouped into data events, come out as they went in. */
  lemma {:induction false} FramedLinesComeBack(lines: seq<string>)
    requires forall i :: 0 <= i < |lines| ==> IsLine(lines[i])
    ensures ReadChunk(Frame(lines)) == lines
    decreases |lines|
  {
    hide ReadChunk;
    if lines == [] {
      NothingToRead();
    } else {
      var front, last := lines[..|lines| - 1], lines[|lines| - 1];
      var line := last + "\n";
      FramedLinesComeBack(front);
      CutIsHarmlessIffBetweenLines(Frame(front), line);
      assert Frame(lines) == Frame(front) + line;
      OneLine(last);
      assert lines == front + [last];
    }
  }

  lemma NothingToRead()
    ensures ReadChunk("") == []
  {
  }

  lemma OneLine(line: string)
    requires IsLine(line)
    ensures ReadChunk(line + "\n") == [line]
  {
    SplitWithoutNewline(line);
    assert (line + "\n")[..|line|] == line;
    assert SplitLines(line + "\n") == [line] + [""];
    NonEmptySnoc([line], "");
    NonEmptySnoc([], line);
    assert [] + [line] == [line];
  }

  lemma {:induction false} SplitWithoutNewline(s: string)
    requires forall i :: 0 <= i < |s| ==> s[i] != '\n'
    ensures SplitLines(s) == [s]
    decreases |s|
  {
    if s != "" {
      SplitWithoutNewline(s[..|s| - 1]);
      assert s[..|s| - 1] + [s[|s| - 1]] == s;
    }
  }

  lemma {:induction false} AlignedChunksComeBack(groups: seq<seq<string>>)
    requires forall g, i :: 0 <= g < |groups| && 0 <= i < |groups[g]| ==> IsLine(groups[g][i])
    ensures Flatten(seq(|groups|, g requires 0 <= g < |groups| => ReadChunk(Frame(groups[g])))) == Flatten(groups)
  {
    forall g | 0 <= g < |groups|
      ensures ReadChunk(Frame(groups[g])) == groups[g]
    {
      FramedLinesComeBack(groups[g]);
    }
    assert seq(|groups|, g requires 0 <= g < |groups| => ReadChunk(Frame(groups[g]))) == groups;
  }
}
