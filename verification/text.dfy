/** The tab-separated text lines of the time-integrated output file: every
    cell is followed by a tab and the line ends in a newline. A parser for
    such lines is the partner that shows the layout loses nothing. */
module Text {
  import opened Numeric

  /** No cell contains the tab or newline that delimit the layout. */
  ghost predicate PlainCells(cells: seq<string>) {
    forall i, k :: 0 <= i < |cells| && 0 <= k < |cells[i]| ==> cells[i][k] != '\t' && cells[i][k] != '\n'
  }

  /** Every cell followed by a tab, concatenated in order. */
  function Terminated(cells: seq<string>): (r: string)
    ensures |cells| == 0 <==> |r| == 0
    ensures 0 < |r| ==> r[|r| - 1] == '\t'
  {
    if |cells| == 0 then "" else cells[0] + "\t" + Terminated(cells[1..])
  }

  /** One output line: the tab-terminated cells and a newline. */
  function TabLine(cells: seq<string>): (r: string)
    ensures 0 < |r| && r[|r| - 1] == '\n'
    ensures |cells| > 0 ==> 2 <= |r| && r[|r| - 2] == '\t'
  {
    Terminated(cells) + "\n"
  }

  /** Position of the first `c` in `s`, or |s| when there is none. */
  function IndexOf(s: string, c: char): (i: nat)
    ensures i <= |s|
    ensures forall k :: 0 <= k < i ==> s[k] != c
    ensures i < |s| ==> s[i] == c
  {
    if |s| == 0 then 0 else if s[0] == c then 0 else 1 + IndexOf(s[1..], c)
  }

  /** Splits a run of tab-terminated cells back into its cells; trailing
      text without a tab becomes a last cell. */
  function SplitTerminated(s: string): (r: seq<string>)
    ensures |s| == 0 <==> |r| == 0
    decreases |s|
  {
    if |s| == 0 then []
    else
      var i := IndexOf(s, '\t');
      if i == |s| then [s] else [s[..i]] + SplitTerminated(s[i + 1..])
  }

  /** Reads one line back into its cells; a line that does not end in a
      newline is rejected. */
  function ParseTabLine(line: string): (r: Option<seq<string>>)
    ensures r.Some? <==> 0 < |line| && line[|line| - 1] == '\n'
  {
    if 0 < |line| && line[|line| - 1] == '\n' then Some(SplitTerminated(line[..|line| - 1]))
    else None
  }

  /** The head cell has no tab and the remaining cells are plain. */
  lemma {:induction false} PlainSplit(cells: seq<string>)
    requires PlainCells(cells) && 0 < |cells|
    ensures forall k :: 0 <= k < |cells[0]| ==> cells[0][k] != '\t'
    ensures PlainCells(cells[1..])
  {
    forall i, k | 0 <= i < |cells[1..]| && 0 <= k < |cells[1..][i]|
      ensures cells[1..][i][k] != '\t' && cells[1..][i][k] != '\n'
    {
      assert cells[1..][i] == cells[i + 1];
    }
  }

  /** Splitting stops at the tab that terminates the first cell. */
  lemma {:induction false} SplitFirstCell(cell: string, rest: string)
    requires forall k :: 0 <= k < |cell| ==> cell[k] != '\t'
    ensures SplitTerminated(cell + "\t" + rest) == [cell] + SplitTerminated(rest)
  {
    var s := cell + "\t" + rest;
    assert forall k :: 0 <= k < |cell| ==> s[k] == cell[k];
    assert s[|cell|] == '\t';
    SearchFirstTab(s, |cell|);
    assert s[..|cell|] == cell;
    assert s[|cell| + 1..] == rest;
  }

  lemma {:induction false} SearchFirstTab(s: string, i: nat)
    requires i < |s| && s[i] == '\t'
    requires forall k :: 0 <= k < i ==> s[k] != '\t'
    ensures IndexOf(s, '\t') == i
  {
    if i > 0 {
      SearchFirstTab(s[1..], i - 1);
    }
  }

  /** Splitting the tab-terminated cells gives the cells back. */
  lemma {:induction false} SplitTerminatedInverse(cells: seq<string>)
    requires PlainCells(cells)
    ensures SplitTerminated(Terminated(cells)) == cells
    decreases |cells|
  {
    if |cells| > 0 {
      PlainSplit(cells);
      SplitTerminatedInverse(cells[1..]);
      SplitFirstCell(cells[0], Terminated(cells[1..]));
      HeadTail(cells);
    }
  }

  /** Every line the writers produce parses back to the cells written. */
  lemma {:induction false} TabLineRoundTrip(cells: seq<string>)
    requires PlainCells(cells)
    ensures ParseTabLine(TabLine(cells)) == Some(cells)
  {
    var line := TabLine(cells);
    assert line[..|line| - 1] == Terminated(cells);
    SplitTerminatedInverse(cells);
  }

  /** The number of cells of a line is the number of tabs in it. */
  function CountOf(s: string, c: char): (n: nat)
    ensures n <= |s|
  {
    if |s| == 0 then 0 else (if s[0] == c then 1 else 0) + CountOf(s[1..], c)
  }

  lemma {:induction false} CountOfAppend(a: string, b: string, c: char)
    ensures CountOf(a + b, c) == CountOf(a, c) + CountOf(b, c)
  {
    if |a| > 0 {
      assert (a + b)[1..] == a[1..] + b;
      CountOfAppend(a[1..], b, c);
    } else {
      assert a + b == b;
    }
  }

  lemma {:induction false} TerminatedTabs(cells: seq<string>)
    requires PlainCells(cells)
    ensures CountOf(Terminated(cells), '\t') == |cells|
    decreases |cells|
  {
    if |cells| > 0 {
      PlainSplit(cells);
      TerminatedTabs(cells[1..]);
      CellHasNoTab(cells[0]);
      CountOfAppend(cells[0] + "\t", Terminated(cells[1..]), '\t');
      CountOfAppend(cells[0], "\t", '\t');
    }
  }

  lemma {:induction false} CellHasNoTab(cell: string)
    requires forall k :: 0 <= k < |cell| ==> cell[k] != '\t'
    ensures CountOf(cell, '\t') == 0
    decreases |cell|
  {
    if |cell| > 0 {
      CellHasNoTab(cell[1..]);
    }
  }
}
