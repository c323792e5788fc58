/** One render cycle: the frame `redraw` composes from the terminal size,
    the header options and the command's output, and whether it is
    written at all. Operating-system results (the size query, the clock,
    the spawned command) are inputs. */
module Render {
  import opened Wrappers
  import Text
  import Config

  /** Cursor home, then clear to the end of the screen. */
  const ClearHome: string := "\U{1B}[H\U{1B}[J"
  const FallbackSize: Size := Size(80, 24)
  /** Rows held back for the header: the title line, the blank line after
      it, and one more because the last body line also ends in a newline. */
  const TitleRows: nat := 3
  const Shell: string := "/bin/sh"

  datatype Size = Size(width: nat, height: nat)

  /** How starting the command went: the pipe could not be created, the
      process could not be started, or it ran and printed these lines
      (as the line scanner delivers them, without their terminators). */
  datatype Spawn = PipeFailed | StartFailed | Started(output: seq<string>)

  /** What the operating system supplies to one cycle: the terminal size
      (None when the query fails), the formatted current time, and the
      outcome of running the command. */
  datatype Cycle = Cycle(size: Option<Size>, now: string, spawn: Spawn)

  /** Rows held back from the command's output. */
  function HeaderRows(noTitle: bool): nat {
    if noTitle then 0 else TitleRows
  }

  /** "Every <interval>s: <command words joined by spaces>". */
  function HeaderLeft(interval: int, cmdArgs: seq<string>): string
    requires interval > 0
  {
    "Every " + Config.IntervalLabel(interval) + "s: " + Text.Join(cmdArgs, " ")
  }

  /** The left-hand header text reads "Every ", the interval in whole
      tenths of a second as digits, a point and one digit, then "s: ",
      and ends with the command words joined by spaces. */
  lemma HeaderLeftShape(interval: int, cmdArgs: seq<string>)
    requires interval > 0
    ensures var r := HeaderLeft(interval, cmdArgs);
            var n := |r| - |Text.Join(cmdArgs, " ")|;
            && 12 <= n <= |r|
            && r[..6] == "Every "
            && r[n - 5] == '.'
            && Text.IsDigits(r[6..n - 5]) && Text.IsDigits(r[n - 4..n - 3])
            && Text.DecimalValue(r[6..n - 5]) * 10 + Text.DecimalValue(r[n - 4..n - 3])
               == Config.Tenths(interval)
            && r[n - 3..n] == "s: "
            && r[n..] == Text.Join(cmdArgs, " ")
  {
    var text := Config.IntervalLabel(interval);
    var words := Text.Join(cmdArgs, " ");
    Config.IntervalLabelReadsBack(interval);
    LeftParts(text, words);
  }

  /** Where the label and the words sit in "Every <label>s: <words>". */
  lemma LeftParts(text: string, words: string)
    requires |text| >= 3
    ensures var r := "Every " + text + "s: " + words;
            var n := |r| - |words|;
            && n == 6 + |text| + 3
            && r[..6] == "Every "
            && r[6..n - 5] == text[..|text| - 2]
            && r[n - 5] == text[|text| - 2]
            && r[n - 4..n - 3] == text[|text| - 1..]
            && r[n - 3..n] == "s: "
            && r[n..] == words
  {
    var r := "Every " + text + "s: " + words;
    var post := "s: " + words;
    assert r == "Every " + text + post;
    Framed("Every ", text, post, 0, |text| - 2);
    Framed("Every ", text, post, |text| - 1, |text|);
    Framed("Every " + text, post, "", 0, 3);
    assert r == "Every " + text + post + "";
  }

  /** A slice of the middle part of a concatenation is that slice of the part. */
  lemma Framed(pre: string, mid: string, post: string, i: nat, j: nat)
    requires i <= j <= |mid|
    ensures (pre + mid + post)[|pre| + i..|pre| + j] == mid[i..j]
  {
    var r := pre + mid + post;
    assert forall k :: 0 <= k < j - i ==> r[|pre| + i..|pre| + j][k] == mid[i..j][k];
  }

  /** The right-hand header text: the time, preceded by "<host>: " when
      there is a hostname to show. */
  function HeaderRight(hostname: string, now: string): string {
    if hostname != "" then hostname + ": " + now else now
  }

  /** The right-hand text always ends with the time, and carries the
      hostname in front exactly when there is one. */
  lemma HeaderRightShape(hostname: string, now: string)
    ensures var r := HeaderRight(hostname, now);
            && |r| >= |now| && r[|r| - |now|..] == now
            && (hostname == "" <==> r == now)
            && (hostname != "" ==> |r| == |hostname| + 2 + |now| && r[..|hostname| + 2] == hostname + ": ")
  {
    var r := HeaderRight(hostname, now);
    if hostname != "" {
      assert r[..|hostname| + 2] == hostname + ": ";
      assert r[|r| - |now|..] == now;
    }
  }

  /** The title line: `left`, then `right` right-aligned in whatever is left
      of `width` (nothing when `left` alone fills it), then a blank line. */
  function HeaderLine(left: string, right: string, width: nat): string {
    var x := if width < |left| then 0 else width - |left|;
    left + Text.PadLeft(right, x) + "\n\n"
  }

  /** The title line starts with the left text and ends with the right text
      and a blank line, with only spaces between. When both fit they fill
      exactly `width` columns; when they do not, the right text follows the
      left one directly, neither of them cut. */
  lemma HeaderLineShape(left: string, right: string, width: nat)
    ensures var h := HeaderLine(left, right, width);
            && |h| >= |left| + |right| + 2 && h[..|left|] == left
            && h[|h| - 2..] == "\n\n"
            && h[|h| - 2 - |right|..|h| - 2] == right
            && (forall i :: |left| <= i < |h| - 2 - |right| ==> h[i] == ' ')
            && (|left| + |right| <= width ==> |h| == width + 2)
            && (|left| + |right| > width ==> h == left + right + "\n\n")
  {
    var x := if width < |left| then 0 else width - |left|;
    var padded := Text.PadLeft(right, x);
    ConcatParts(left, padded, "\n\n");
  }

  /** Where the three parts of `a + b + c` sit. */
  lemma ConcatParts(a: string, b: string, c: string)
    ensures (a + b + c)[..|a|] == a
    ensures (a + b + c)[|a|..|a| + |b|] == b
    ensures (a + b + c)[|a| + |b|..] == c
    ensures forall i :: |a| <= i < |a| + |b| ==> (a + b + c)[i] == b[i - |a|]
  {
  }

  /** The header block shown above the output. */
  function Header(s: Config.Settings, cmdArgs: seq<string>, now: string, width: nat): string
    requires s.interval > 0
  {
    HeaderLine(HeaderLeft(s.interval, cmdArgs), HeaderRight(s.hostname, now), width)
  }

  /** A line cut to at most `width` characters. */
  function Clip(line: string, width: nat): (r: string)
    ensures |r| == if |line| <= width then |line| else width
    ensures r == line[..|r|]
  {
    if |line| > width then line[..width] else line
  }

  /** The lines the loop reads: at most `limit` of them (none when `limit`
      is not positive). Blank lines count against the limit. */
  function Consumed(lines: seq<string>, limit: int): (c: seq<string>)
    ensures |c| <= |lines| && c == lines[..|c|]
    ensures limit >= 0 ==> |c| == if |lines| <= limit then |lines| else limit
    ensures limit < 0 ==> c == []
  {
    if limit <= 0 then []
    else if |lines| <= limit then lines
    else lines[..limit]
  }

  /** The rows shown for some output lines: blank lines dropped, the others clipped. */
  function Rows(lines: seq<string>, width: nat): (rows: seq<string>)
    ensures |rows| <= |lines|
    ensures forall i :: 0 <= i < |rows| ==> |rows[i]| <= width
    ensures width > 0 ==> forall i :: 0 <= i < |rows| ==> rows[i] != ""
    decreases |lines|
  {
    if |lines| == 0 then []
    else (if lines[0] == "" then [] else [Clip(lines[0], width)]) + Rows(lines[1..], width)
  }

  /** Each row followed by a newline. */
  function Unlines(rows: seq<string>): string
    decreases |rows|
  {
    if |rows| == 0 then "" else rows[0] + "\n" + Unlines(rows[1..])
  }

  /** The output part of a frame. */
  function Body(lines: seq<string>, width: nat, limit: int): string {
    Unlines(Rows(Consumed(lines, limit), width))
  }

  /** The argument vector that is started: the words themselves, or the
      shell running them joined by spaces. */
  function Argv(exec: bool, cmdArgs: seq<string>): (argv: seq<string>)
    requires |cmdArgs| > 0
    ensures |argv| > 0
    ensures exec ==> argv == cmdArgs
    ensures !exec ==> argv == [Shell, "-c", Text.Join(cmdArgs, " ")]
  {
    if exec then cmdArgs else [Shell, "-c", Text.Join(cmdArgs, " ")]
  }

  /** The bytes one cycle writes, or None when the command could not be
      started (the cycle returns before writing, header included). */
  function Frame(s: Config.Settings, cmdArgs: seq<string>, c: Cycle): (f: Option<string>)
    requires s.interval > 0
    ensures f.Some? <==> c.spawn.Started?
    ensures f.Some? ==> |f.value| >= |ClearHome| && f.value[..|ClearHome|] == ClearHome
  {
    if !c.spawn.Started? then None
    else
      var z := c.size.GetOr(FallbackSize);
      var head := if s.noTitle then "" else Header(s, cmdArgs, c.now, z.width);
      var f := ClearHome + head + Body(c.spawn.output, z.width, z.height - HeaderRows(s.noTitle));
      assert f[..|ClearHome|] == ClearHome;
      Some(f)
  }

  // ---- Properties of the body ----

  /** The rows of two runs of output are the rows of each, in order. */
  lemma {:induction false} RowsAppend(a: seq<string>, b: seq<string>, width: nat)
    ensures Rows(a + b, width) == Rows(a, width) + Rows(b, width)
    decreases |a|
  {
    if |a| > 0 {
      assert (a + b)[1..] == a[1..] + b;
      RowsAppend(a[1..], b, width);
    } else {
      assert a + b == b;
    }
  }

  lemma {:induction false} UnlinesAppend(a: seq<string>, b: seq<string>)
    ensures Unlines(a + b) == Unlines(a) + Unlines(b)
    decreases |a|
  {
    if |a| > 0 {
      assert (a + b)[1..] == a[1..] + b;
      UnlinesAppend(a[1..], b);
    } else {
      assert a + b == b;
    }
  }

  /** The non-blank lines, in order. */
  function NonBlank(lines: seq<string>): seq<string>
    decreases |lines|
  {
    if |lines| == 0 then []
    else (if lines[0] == "" then [] else [lines[0]]) + NonBlank(lines[1..])
  }

  /** An independent description of the rows: exactly the non-blank lines,
      each clipped to the width. */
  lemma {:induction false} RowsAreClippedNonBlank(lines: seq<string>, width: nat)
    ensures |Rows(lines, width)| == |NonBlank(lines)|
    ensures forall i :: 0 <= i < |NonBlank(lines)| ==>
              Rows(lines, width)[i] == Clip(NonBlank(lines)[i], width)
    decreases |lines|
  {
    if |lines| > 0 {
      RowsAreClippedNonBlank(lines[1..], width);
    }
  }

  /** Lines that are non-blank and fit the width are shown unchanged. */
  lemma {:induction false} RowsPassThrough(lines: seq<string>, width: nat)
    requires forall i :: 0 <= i < |lines| ==> lines[i] != "" && |lines[i]| <= width
    ensures Rows(lines, width) == lines
    decreases |lines|
  {
    if |lines| > 0 {
      RowsPassThrough(lines[1..], width);
      assert [lines[0]] + lines[1..] == lines;
    }
  }

  /** Output past the first `limit` lines never reaches the frame. */
  lemma DropsBeyondLimit(lines: seq<string>, extra: seq<string>, width: nat, limit: int)
    requires |lines| >= limit
    ensures Body(lines + extra, width, limit) == Body(lines, width, limit)
  {
    if limit > 0 {
      assert (lines + extra)[..limit] == lines[..limit];
    }
  }

  /** How many times `ch` occurs in `s`. */
  function Occurrences(s: string, ch: char): nat
    decreases |s|
  {
    if |s| == 0 then 0 else (if s[0] == ch then 1 else 0) + Occurrences(s[1..], ch)
  }

  lemma {:induction false} OccurrencesAppend(a: string, b: string, ch: char)
    ensures Occurrences(a + b, ch) == Occurrences(a, ch) + Occurrences(b, ch)
    decreases |a|
  {
    if |a| > 0 {
      assert (a + b)[1..] == a[1..] + b;
      OccurrencesAppend(a[1..], b, ch);
    } else {
      assert a + b == b;
    }
  }

  lemma {:induction false} NoOccurrences(s: string, ch: char)
    requires ch !in s
    ensures Occurrences(s, ch) == 0
    decreases |s|
  {
    if |s| > 0 {
      assert forall i :: 0 <= i < |s[1..]| ==> s[1..][i] == s[i + 1];
      NoOccurrences(s[1..], ch);
    }
  }

  /** Rows without line breaks of their own make one screen line each. */
  lemma {:induction false} UnlinesLineCount(rows: seq<string>)
    requires forall i :: 0 <= i < |rows| ==> '\n' !in rows[i]
    ensures Occurrences(Unlines(rows), '\n') == |rows|
    decreases |rows|
  {
    if |rows| > 0 {
      UnlinesLineCount(rows[1..]);
      NoOccurrences(rows[0], '\n');
      OccurrencesAppend(rows[0], "\n", '\n');
      OccurrencesAppend(rows[0] + "\n", Unlines(rows[1..]), '\n');
    }
  }

  /** The body fills at most `limit` screen lines (none when `limit` is not
      positive), given scanner lines, which never hold a newline. */
  lemma BodyLineBound(lines: seq<string>, width: nat, limit: int)
    requires forall i :: 0 <= i < |lines| ==> '\n' !in lines[i]
    ensures Occurrences(Body(lines, width, limit), '\n') <= if limit < 0 then 0 else limit
  {
    var c := Consumed(lines, limit);
    var rows := Rows(c, width);
    RowsAreClippedNonBlank(c, width);
    NonBlankFromLines(c);
    forall i | 0 <= i < |rows| ensures '\n' !in rows[i] {
      var line := NonBlank(c)[i];
      assert '\n' !in line;
      assert rows[i] == line[..|rows[i]|];
    }
    UnlinesLineCount(rows);
  }

  /** Every non-blank line is one of the lines. */
  lemma {:induction false} NonBlankFromLines(lines: seq<string>)
    ensures |NonBlank(lines)| <= |lines|
    ensures forall i :: 0 <= i < |NonBlank(lines)| ==> NonBlank(lines)[i] in lines
    decreases |lines|
  {
    if |lines| > 0 {
      NonBlankFromLines(lines[1..]);
    }
  }

  // ---- The cycle as the source runs it ----

  /** One cycle step by step, the way `redraw` builds its buffer: returns
      what is written, which is exactly the composed frame. */
  method Redraw(s: Config.Settings, cmdArgs: seq<string>, c: Cycle) returns (written: Option<string>)
    requires s.interval > 0
    ensures written == Frame(s, cmdArgs, c)
  {
    var buf := ClearHome;
    var width: nat, height: int := 80, 24;
    if c.size.Some? {
      width, height := c.size.value.width, c.size.value.height;
    }
    var delta: int := 0;
    if !s.noTitle {
      delta := 3;
      var title := TitleBlock(s, cmdArgs, c.now, width);
      buf := buf + title;
    }
    if !c.spawn.Started? {
      return None;
    }
    ghost var head := buf;
    buf := AppendOutput(buf, c.spawn.output, width, height - delta);
    FrameFromParts(s, cmdArgs, c, width, height, delta, head);
    written := Some(buf);
  }

  /** The frame is the prefix the cycle built before reading, then the body. */
  lemma FrameFromParts(s: Config.Settings, cmdArgs: seq<string>, c: Cycle,
                       width: nat, height: int, delta: int, head: string)
    requires s.interval > 0 && c.spawn.Started?
    requires c.size.Some? ==> width == c.size.value.width && height == c.size.value.height
    requires c.size.None? ==> width == 80 && height == 24
    requires delta == HeaderRows(s.noTitle)
    requires head == ClearHome + (if s.noTitle then "" else Header(s, cmdArgs, c.now, width))
    ensures Frame(s, cmdArgs, c) == Some(head + Body(c.spawn.output, width, height - delta))
  {
  }

  /** The title block as `redraw` prints it: the pad width is what the left
      text leaves of the terminal width, floored at zero. */
  method TitleBlock(s: Config.Settings, cmdArgs: seq<string>, now: string, width: nat) returns (title: string)
    requires s.interval > 0
    ensures title == Header(s, cmdArgs, now, width)
  {
    var left := HeaderLeft(s.interval, cmdArgs);
    var right := HeaderRight(s.hostname, now);
    var x := width - |left|;
    if x < 0 {
      x := 0;
    }
    title := left + Text.PadLeft(right, x) + "\n\n";
  }

  /** The read loop: takes lines while fewer than `limit` have been taken,
      skipping blank ones and clipping the rest to `width`. */
  method AppendOutput(buf: string, output: seq<string>, width: nat, limit: int) returns (out: string)
    ensures out == buf + Body(output, width, limit)
  {
    out := buf;
    var i := 0;
    while i < limit && i < |output|
      invariant 0 <= i <= |output|
      invariant i <= limit || i == 0
      invariant out == buf + Unlines(Rows(output[..i], width))
    {
      var piece := EmitLine(output[i], width);
      StepRows(output, i, width);
      Associate(buf, Unlines(Rows(output[..i], width)), piece);
      out := out + piece;
      i := i + 1;
    }
    LoopTakesConsumed(output, limit, i);
  }

  /** Sequence concatenation regroups; kept apart so the loop's own proof
      does not have to find it among the row facts. */
  lemma Associate(a: string, b: string, c: string)
    ensures (a + b) + c == a + (b + c)
  {
  }

  /** Where the read loop stops, it has taken exactly the consumed lines. */
  lemma LoopTakesConsumed(output: seq<string>, limit: int, i: nat)
    requires i <= |output| && (i <= limit || i == 0)
    requires !(i < limit && i < |output|)
    ensures output[..i] == Consumed(output, limit)
  {
    if i == 0 {
      assert output[..i] == [];
    }
  }

  /** What the loop body writes for one line: nothing for a blank line,
      otherwise the line cut to `width` and a newline. */
  method EmitLine(line: string, width: nat) returns (piece: string)
    ensures piece == RowText(line, width)
  {
    piece := "";
    if |line| > 0 {
      if |line| > width {
        piece := piece + line[..width];
      } else {
        piece := piece + line;
      }
      piece := piece + "\n";
    }
  }

  /** What one line adds to the frame. */
  function RowText(line: string, width: nat): string {
    if line == "" then "" else Clip(line, width) + "\n"
  }

  /** Taking one more line adds that line's text. */
  lemma StepRows(output: seq<string>, i: nat, width: nat)
    requires i < |output|
    ensures Unlines(Rows(output[..i + 1], width)) == Unlines(Rows(output[..i], width)) + RowText(output[i], width)
  {
    var line := output[i];
    assert output[..i + 1] == output[..i] + [line];
    RowsAppend(output[..i], [line], width);
    UnlinesAppend(Rows(output[..i], width), Rows([line], width));
    assert Rows([line], width) == (if line == "" then [] else [Clip(line, width)]) + Rows([], width);
  }

  /** What a written frame is made of: the clear sequence, the header
      unless titles are off, and the output rows, of which there are at
      most as many as the screen has rows below the header. */
  lemma FrameLayout(s: Config.Settings, cmdArgs: seq<string>, c: Cycle)
    requires s.interval > 0 && c.spawn.Started?
    ensures var z := c.size.GetOr(FallbackSize);
            var rows := Rows(Consumed(c.spawn.output, z.height - HeaderRows(s.noTitle)), z.width);
            && |rows| <= (if z.height < HeaderRows(s.noTitle) then 0 else z.height - HeaderRows(s.noTitle))
            && (s.noTitle ==> Frame(s, cmdArgs, c) == Some(ClearHome + Unlines(rows)))
            && (!s.noTitle ==> Frame(s, cmdArgs, c) == Some(ClearHome + Header(s, cmdArgs, c.now, z.width) + Unlines(rows)))
  {
  }

  /** With a failed size query the frame is the one for an 80x24 terminal. */
  lemma SizeFallback(s: Config.Settings, cmdArgs: seq<string>, c: Cycle)
    requires s.interval > 0 && c.size.None?
    ensures Frame(s, cmdArgs, c) == Frame(s, cmdArgs, c.(size := Some(Size(80, 24))))
  {
  }

  /** Words without spaces reach the shell as one command line that splits
      back into exactly those words, so both ways of starting the command
      name the same words. */
  lemma ShellLineSplitsToWords(cmdArgs: seq<string>)
    requires |cmdArgs| > 0
    requires forall i :: 0 <= i < |cmdArgs| ==> ' ' !in cmdArgs[i]
    ensures Text.Split(Argv(false, cmdArgs)[2], ' ') == Argv(true, cmdArgs)
  {
    Text.SplitJoin(cmdArgs, ' ');
  }

  /** `echo hi` without a title on a terminal whose size cannot be read:
      the frame is the clear sequence and the one output line. */
  lemma EchoWithoutTitle(s: Config.Settings, now: string)
    requires s.interval > 0 && s.noTitle
    ensures Frame(s, ["echo", "hi"], Cycle(None, now, Started(["hi"]))) == Some(ClearHome + "hi\n")
  {
    assert Consumed(["hi"], 24) == ["hi"];
    assert Rows(["hi"], 80) == ["hi"] by {
      assert ["hi"][1..] == [];
    }
    assert Unlines(["hi"]) == "hi\n" by {
      assert ["hi"][1..] == [];
    }
  }
}
