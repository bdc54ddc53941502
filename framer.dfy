/**
  The reader task of a serial link turns the chunks returned by the port into lines.

  `LineReader` is the framing as the reader task performs it: the chunk, with one
  trailing carriage return removed, is appended to a buffer; a buffer that starts with
  a carriage return and line feed loses them; then every line feed cuts a line off the
  buffer, and the line published is the text before the line feed minus its last
  character. A line feed at the very front of the buffer makes that cut index -1, which
  aborts the program.

  `LineAssembler` is the framing the protocol calls for: the buffer keeps the bytes as
  they arrive, every line feed ends a line, one carriage return before it is dropped,
  and blank lines are not published. Its output does not depend on how the stream is cut
  into chunks; the reader task's output does.
*/
module Framing {
  import opened Text

  /** Lines written the way the devices write them: each followed by a carriage return and a line feed. */
  function Terminated(lines: seq<string>): string
  {
    if lines == [] then "" else lines[0] + "\r\n" + Terminated(lines[1..])
  }

  /** A line as a device sends it: no carriage return or line feed inside. */
  predicate Plain(line: string)
  {
    '\r' !in line && '\n' !in line
  }

  // ------------------------------------------------------------------ as written

  /** What the reader task has published and kept after some chunks, and whether it aborted. */
  datatype Framed = Framed(lines: seq<string>, command: string, crashed: bool)

  /** A chunk joins the buffer: one trailing carriage return dropped, then one leading CR LF of the buffer. */
  function Absorb(command: string, chunk: string): (c: string)
    ensures HasPrefix(command + TrimSuffix(chunk, "\r"), "\r\n") ==> command + TrimSuffix(chunk, "\r") == "\r\n" + c
    ensures !HasPrefix(command + TrimSuffix(chunk, "\r"), "\r\n") ==> c == command + TrimSuffix(chunk, "\r")
  {
    var c := command + TrimSuffix(chunk, "\r");
    if HasPrefix(c, "\r\n") then c[2..] else c
  }

  /**
    The cutting loop, after the lines in acc were published: it stops when no line feed
    is left, and aborts when the first line feed is at the front.
  */
  function Extract(command: string, acc: seq<string>): (r: Framed)
    ensures !r.crashed ==> '\n' !in r.command
    ensures r.crashed ==> |r.command| > 0 && r.command[0] == '\n'
    decreases |command|
  {
    var i := Index(command, '\n');
    if i == -1 then Framed(acc, command, false)
    else if i == 0 then Framed(acc, command, true)
    else Extract(command[i + 1..], acc + [command[..i - 1]])
  }

  /** One chunk handled by the reader task. */
  function Delivered(command: string, chunk: string): Framed
  {
    Extract(Absorb(command, chunk), [])
  }

  /** Chunks handled one after the other; nothing is handled after an abort. */
  function Stream(command: string, chunks: seq<string>): (r: Framed)
    decreases |chunks|
  {
    if chunks == [] then Framed([], command, false)
    else
      var first := Delivered(command, chunks[0]);
      if first.crashed then first
      else
        var rest := Stream(first.command, chunks[1..]);
        Framed(first.lines + rest.lines, rest.command, rest.crashed)
  }

  /** The reader task's framing state: the text received but not yet published. */
  class LineReader {
    var command: string

    constructor ()
      ensures command == ""
    {
      command := "";
    }

    /** Handle one chunk read from the port: the lines it publishes, and whether it aborts. */
    method Receive(chunk: string) returns (lines: seq<string>, crashed: bool)
      modifies this
      ensures Framed(lines, command, crashed) == Delivered(old(command), chunk)
    {
      command := command + TrimSuffix(chunk, "\r");
      if HasPrefix(command, "\r\n") {
        command := command[2..];
      }
      lines := [];
      while '\n' in command
        invariant Extract(command, lines) == Delivered(old(command), chunk)
        decreases |command|
      {
        var index := Index(command, '\n');
        if index == 0 {
          // slicing up to index - 1 == -1 panics
          return lines, true;
        }
        ExtractStep(command, lines);
        lines := lines + [command[..index - 1]];
        if index + 1 == |command| {
          command := "";
        } else {
          command := command[index + 1..];
        }
      }
      crashed := false;
    }
  }

  /** One turn of the cutting loop: the text before a line feed not at the front, minus its last character, is published. */
  lemma ExtractStep(command: string, acc: seq<string>)
    requires Index(command, '\n') > 0
    ensures var i := Index(command, '\n');
      Extract(command, acc) == Extract(command[i + 1..], acc + [command[..i - 1]])
      && (i + 1 == |command| ==> command[i + 1..] == "")
  {
  }

  /**
    When a whole batch of device lines arrives in one chunk on an empty buffer, the reader
    task publishes exactly those lines, provided the first is not blank.
  */
  lemma DeliveredWholeLines(lines: seq<string>)
    requires forall k :: 0 <= k < |lines| ==> Plain(lines[k])
    requires lines != [] ==> lines[0] != ""
    ensures Delivered("", Terminated(lines)) == Framed(lines, "", false)
  {
    ExtractTerminated(lines, []);
    TerminatedShape(lines);
    DeliveredShaped(Terminated(lines), lines);
  }

  /** Text that passes into the empty buffer unchanged is cut as the cutting loop cuts it. */
  lemma DeliveredShaped(t: string, lines: seq<string>)
    requires t != [] ==> t[0] != '\r' && t[|t| - 1] == '\n'
    requires Extract(t, []) == Framed([] + lines, "", false)
    ensures Delivered("", t) == Framed(lines, "", false)
  {
    AbsorbUnchanged(t);
    assert [] + lines == lines;
  }

  /** Device lines, the first not blank, start with no carriage return and end with a line feed. */
  lemma TerminatedShape(lines: seq<string>)
    requires lines != [] ==> lines[0] != "" && Plain(lines[0])
    ensures var t := Terminated(lines); t != [] ==> t[0] != '\r' && t[|t| - 1] == '\n'
  {
    if lines != [] {
      var t := Terminated(lines);
      assert t == lines[0] + ("\r\n" + Terminated(lines[1..]));
      assert lines[0][0] in lines[0];
      assert t[0] == lines[0][0];
      TerminatedEnds(lines);
    }
  }

  /** Text that starts with no carriage return and ends with a line feed passes into an empty buffer unchanged. */
  lemma AbsorbUnchanged(t: string)
    requires t != [] ==> t[0] != '\r' && t[|t| - 1] == '\n'
    ensures Absorb("", t) == t
  {
    if t != [] {
      assert t[|t| - 1..][0] == '\n';
      assert ("" + t)[..|t|][0] == t[0];
    }
    assert TrimSuffix(t, "\r") == t;
    assert "" + t == t;
  }

  lemma TerminatedEnds(lines: seq<string>)
    requires lines != []
    ensures Terminated(lines)[|Terminated(lines)| - 1] == '\n'
  {
    if lines[1..] != [] {
      TerminatedEnds(lines[1..]);
    }
  }

  lemma {:induction false} ExtractTerminated(lines: seq<string>, acc: seq<string>)
    requires forall k :: 0 <= k < |lines| ==> Plain(lines[k])
    ensures Extract(Terminated(lines), acc) == Framed(acc + lines, "", false)
    decreases |lines|
  {
    if lines == [] {
      assert Index("", '\n') == -1;
      assert acc + lines == acc;
    } else {
      ExtractFirstLine(lines, acc);
      ExtractTerminated(lines[1..], acc + [lines[0]]);
      AppendFirst(lines, acc);
    }
  }

  lemma ExtractFirstLine(lines: seq<string>, acc: seq<string>)
    requires lines != [] && Plain(lines[0])
    ensures Extract(Terminated(lines), acc) == Extract(Terminated(lines[1..]), acc + [lines[0]])
  {
    assert Terminated(lines) == lines[0] + "\r\n" + Terminated(lines[1..]);
    ExtractLine(lines[0], Terminated(lines[1..]), acc);
  }

  lemma AppendFirst<T>(xs: seq<T>, acc: seq<T>)
    requires xs != []
    ensures acc + [xs[0]] + xs[1..] == acc + xs
  {
  }

  /** The cutting loop publishes a plain line followed by CR LF as it is. */
  lemma ExtractLine(line: string, rest: string, acc: seq<string>)
    requires Plain(line)
    ensures Extract(line + "\r\n" + rest, acc) == Extract(rest, acc + [line])
  {
    var t := line + "\r\n" + rest;
    assert t == (line + ['\r']) + ['\n'] + rest;
    IndexAfterPrefix(line + ['\r'], '\n', rest);
    assert t[..|line|] == line;
    assert t[|line| + 2..] == rest;
  }

  /** Text without a line feed stays in the buffer. */
  lemma ExtractNoLineFeed(text: string, acc: seq<string>)
    requires '\n' !in text
    ensures Extract(text, acc) == Framed(acc, text, false)
  {
  }

  /** A line feed cuts off the text before it, minus that text's last character. */
  lemma ExtractCut(before: string, rest: string, acc: seq<string>)
    requires '\n' !in before && before != ""
    ensures Extract(before + "\n" + rest, acc) == Extract(rest, acc + [before[..|before| - 1]])
  {
    var t := before + "\n" + rest;
    assert t == before + ['\n'] + rest;
    IndexAfterPrefix(before, '\n', rest);
    assert t[..|before| - 1] == before[..|before| - 1];
    assert t[|before| + 1..] == rest;
  }

  /**
    A line terminator split across two chunks garbles the line: "ok" followed by CR in
    one chunk and LF in the next publishes "o", where the same bytes in one chunk publish "ok".
  */
  lemma SplitTerminatorGarbles()
    ensures Delivered("", "ok\r\n") == Framed(["ok"], "", false)
    ensures Stream("", ["ok\r", "\n"]) == Framed(["o"], "", false)
  {
    OkInOneChunk();
    OkBeforeCarriageReturn();
    OkAfterLineFeed();
    StreamTwo("", "ok\r", "\n");
  }

  lemma OkInOneChunk()
    ensures Delivered("", "ok\r\n") == Framed(["ok"], "", false)
  {
    OkChunk();
    OkTerminated();
    DeliveredWholeLines(["ok"]);
  }

  lemma OkTerminated()
    ensures Terminated(["ok"]) == "ok\r\n"
  {
    assert Terminated(["ok"]) == "ok" + "\r\n" + Terminated([]);
  }

  lemma OkBeforeCarriageReturn()
    ensures Delivered("", "ok\r") == Framed([], "ok", false)
  {
    assert TrimSuffix("ok\r", "\r") == "ok";
    assert "" + "ok" == "ok";
    assert "ok"[..2][0] != "\r\n"[0];
    ExtractNoLineFeed("ok", []);
  }

  lemma OkAfterLineFeed()
    ensures Delivered("ok", "\n") == Framed(["o"], "", false)
  {
    assert "\n"[0..][0] != "\r"[0];
    assert TrimSuffix("\n", "\r") == "\n";
    assert ("ok" + "\n")[..2][0] != "\r\n"[0];
    assert Absorb("ok", "\n") == "ok" + "\n" + "";
    ExtractCut("ok", "", []);
    assert "ok"[..1] == "o";
    assert [] + ["o"] == ["o"];
    ExtractNoLineFeed("", ["o"]);
  }

  /** Two chunks, the first handled without an abort. */
  lemma StreamTwo(command: string, a: string, b: string)
    requires !Delivered(command, a).crashed
    ensures var first := Delivered(command, a);
      var second := Delivered(first.command, b);
      Stream(command, [a, b]) == Framed(first.lines + second.lines, second.command, second.crashed)
  {
    var first := Delivered(command, a);
    StreamCons(command, [a, b]);
    assert [a, b][1..] == [b];
    StreamOne(first.command, b);
  }

  /** The first chunk, handled without an abort, followed by the rest. */
  lemma StreamCons(command: string, chunks: seq<string>)
    requires chunks != [] && !Delivered(command, chunks[0]).crashed
    ensures var first := Delivered(command, chunks[0]);
      var rest := Stream(first.command, chunks[1..]);
      Stream(command, chunks) == Framed(first.lines + rest.lines, rest.command, rest.crashed)
  {
  }

  /** A single chunk is handled as the reader task handles it. */
  lemma StreamOne(command: string, b: string)
    ensures Stream(command, [b]) == Delivered(command, b)
  {
    var second := Delivered(command, b);
    assert [b][0] == b && [b][1..] == [];
    if !second.crashed {
      assert Stream(second.command, []) == Framed([], second.command, false);
      assert second.lines + [] == second.lines;
    }
  }

  /**
    A carriage return that ends one chunk, before the line feed that starts the next,
    leaves a line feed at the front of the buffer and aborts the reader task, where the
    same bytes in one chunk publish the line.
  */
  lemma SplitBlankLineAborts()
    ensures Delivered("", "\r\nGrbl\r\n") == Framed(["Grbl"], "", false)
    ensures Stream("", ["\r", "\nGrbl\r\n"]).crashed
  {
    GrblInOneChunk();
    LoneCarriageReturn();
    LeadingLineFeedAborts();
    StreamTwo("", "\r", "\nGrbl\r\n");
  }

  lemma GrblInOneChunk()
    ensures Delivered("", "\r\nGrbl\r\n") == Framed(["Grbl"], "", false)
  {
    GrblChunk();
    GrblAfterBlankLine();
    ExtractTerminated(["Grbl"], []);
    DeliveredVia("\r\nGrbl\r\n", Terminated(["Grbl"]), ["Grbl"]);
  }

  /** A chunk that the buffer turns into c is cut as the cutting loop cuts c. */
  lemma DeliveredVia(t: string, c: string, lines: seq<string>)
    requires Absorb("", t) == c && Extract(c, []) == Framed([] + lines, "", false)
    ensures Delivered("", t) == Framed(lines, "", false)
  {
    assert [] + lines == lines;
  }

  lemma GrblAfterBlankLine()
    ensures Absorb("", "\r\nGrbl\r\n") == Terminated(["Grbl"])
  {
    var t := "\r\nGrbl\r\n";
    assert t[|t| - 1..][0] != "\r"[0];
    assert TrimSuffix(t, "\r") == t;
    assert "" + t == t;
    assert HasPrefix(t, "\r\n");
    assert t[2..] == "Grbl\r\n";
  }

  lemma LoneCarriageReturn()
    ensures Delivered("", "\r") == Framed([], "", false)
  {
    assert Absorb("", "\r") == "";
    ExtractNoLineFeed("", []);
  }

  lemma LeadingLineFeedAborts()
    ensures Delivered("", "\nGrbl\r\n").crashed
  {
    var t := "\nGrbl\r\n";
    assert t[|t| - 1..][0] != "\r"[0];
    assert t[..2][0] != "\r\n"[0];
    assert Absorb("", t) == t;
    assert Index(t, '\n') == 0;
  }

  // ------------------------------------------------------------------ corrected

  /** What the corrected framing has published from some input, and the partial line it keeps. */
  datatype Cut = Cut(lines: seq<string>, pending: string)

  /** The line a line feed completes: the text before it, minus one carriage return. */
  function Completed(pending: string): string
  {
    TrimSuffix(pending, "\r")
  }

  /** The corrected framing of a chunk after the partial line `pending`. */
  function Feed(pending: string, chunk: string): (r: Cut)
    ensures '\n' !in pending ==> '\n' !in r.pending
    ensures forall k :: 0 <= k < |r.lines| ==> r.lines[k] != ""
    ensures '\n' !in pending ==> forall k :: 0 <= k < |r.lines| ==> '\n' !in r.lines[k]
    decreases |chunk|
  {
    if chunk == [] then Cut([], pending)
    else if chunk[0] == '\n' then
      var line := Completed(pending);
      var rest := Feed("", chunk[1..]);
      Cut((if line == "" then [] else [line]) + rest.lines, rest.pending)
    else Feed(pending + [chunk[0]], chunk[1..])
  }

  /** Chunks framed one after the other. */
  function FeedAll(pending: string, chunks: seq<string>): Cut
    decreases |chunks|
  {
    if chunks == [] then Cut([], pending)
    else
      var first := Feed(pending, chunks[0]);
      var rest := FeedAll(first.pending, chunks[1..]);
      Cut(first.lines + rest.lines, rest.pending)
  }

  function Concat(chunks: seq<string>): string
  {
    if chunks == [] then "" else chunks[0] + Concat(chunks[1..])
  }

  /** Framing two pieces of a stream one after the other is framing the whole of it. */
  lemma {:induction false} FeedAppend(pending: string, a: string, b: string)
    ensures var first := Feed(pending, a);
      var second := Feed(first.pending, b);
      Feed(pending, a + b) == Cut(first.lines + second.lines, second.pending)
    decreases |a|
  {
    if a == [] {
      assert a + b == b;
    } else {
      assert (a + b)[0] == a[0];
      assert (a + b)[1..] == a[1..] + b;
      if a[0] == '\n' {
        FeedAppend("", a[1..], b);
        var line := Completed(pending);
        var head: seq<string> := if line == "" then [] else [line];
        var r1 := Feed("", a[1..]);
        var r2 := Feed(r1.pending, b);
        assert head + (r1.lines + r2.lines) == (head + r1.lines) + r2.lines;
      } else {
        FeedAppend(pending + [a[0]], a[1..], b);
      }
    }
  }

  /** The corrected framing does not depend on how the stream is cut into chunks. */
  lemma {:induction false} ChunkingInvariance(pending: string, chunks: seq<string>)
    ensures FeedAll(pending, chunks) == Feed(pending, Concat(chunks))
    decreases |chunks|
  {
    if chunks != [] {
      var first := Feed(pending, chunks[0]);
      ChunkingInvariance(first.pending, chunks[1..]);
      FeedAppend(pending, chunks[0], Concat(chunks[1..]));
    } else {
      assert Concat(chunks) == "";
    }
  }

  /** A line and its terminator, fed after a partial line holding no line feed. */
  lemma FeedLine(pending: string, line: string, rest: string)
    requires Plain(line)
    ensures Feed(pending, line + "\r\n" + rest)
      == var l := Completed(pending + line + "\r");
         var r := Feed("", rest);
         Cut((if l == "" then [] else [l]) + r.lines, r.pending)
  {
    FeedAppend(pending, line, "\r\n" + rest);
    FeedPlain(pending, line);
    assert ("\r\n" + rest)[0] == '\r';
    assert ("\r\n" + rest)[1..] == "\n" + rest;
    assert ("\n" + rest)[1..] == rest;
    assert line + "\r\n" + rest == line + ("\r\n" + rest);
  }

  /** Text without line feeds only extends the partial line. */
  lemma {:induction false} FeedPlain(pending: string, text: string)
    requires '\n' !in text
    ensures Feed(pending, text) == Cut([], pending + text)
    decreases |text|
  {
    if text == [] {
      assert pending + text == pending;
    } else {
      assert text[0] in text;
      assert forall k :: 0 <= k < |text[1..]| ==> text[1..][k] == text[k + 1];
      FeedPlain(pending + [text[0]], text[1..]);
      assert pending + [text[0]] + text[1..] == pending + text;
    }
  }

  /**
    On the lines the devices send, the corrected framing publishes exactly those lines,
    however the bytes are split into chunks, as long as none is blank.
  */
  lemma {:induction false} FeedWholeLines(lines: seq<string>)
    requires forall k :: 0 <= k < |lines| ==> Plain(lines[k]) && lines[k] != ""
    ensures Feed("", Terminated(lines)) == Cut(lines, "")
    decreases |lines|
  {
    if lines != [] {
      var l := lines[0];
      FeedLine("", l, Terminated(lines[1..]));
      assert "" + l + "\r" == l + "\r";
      assert Completed(l + "\r") == l;
      FeedWholeLines(lines[1..]);
      assert [l] + lines[1..] == lines;
    }
  }

  /** The two splits that defeat the reader task are framed like the unsplit stream. */
  lemma CorrectedOnSplitTerminators()
    ensures FeedAll("", ["ok\r", "\n"]) == Cut(["ok"], "")
    ensures FeedAll("", ["\r", "\nGrbl\r\n"]) == Cut(["Grbl"], "")
  {
    OkChunk();
    SplitBeforeLineFeed("ok");
    GrblChunk();
    SplitAfterCarriageReturn("Grbl");
  }

  lemma OkChunk()
    ensures Plain("ok") && "ok" != "" && "ok" + "\r" == "ok\r"
  {
  }

  lemma GrblChunk()
    ensures Plain("Grbl") && "Grbl" != "" && "\n" + "Grbl" + "\r\n" == "\nGrbl\r\n"
  {
  }

  /** A device line whose line feed arrives in a chunk of its own is published whole. */
  lemma SplitBeforeLineFeed(line: string)
    requires Plain(line) && line != ""
    ensures FeedAll("", [line + "\r", "\n"]) == Cut([line], "")
  {
    ChunkingInvariance("", [line + "\r", "\n"]);
    assert Concat([line + "\r", "\n"]) == Terminated([line]) by {
      assert Concat(["\n"]) == "\n" + Concat([]);
      assert Terminated([line]) == line + "\r\n" + Terminated([]);
    }
    FeedWholeLines([line]);
  }

  /**
    A chunk holding only a carriage return, then one holding the line feed and a device
    line: the blank line is dropped and the device line published.
  */
  lemma SplitAfterCarriageReturn(line: string)
    requires Plain(line) && line != ""
    ensures FeedAll("", ["\r", "\n" + line + "\r\n"]) == Cut([line], "")
  {
    ChunkingInvariance("", ["\r", "\n" + line + "\r\n"]);
    assert Concat(["\r", "\n" + line + "\r\n"]) == "" + "\r\n" + Terminated([line]) by {
      assert Concat(["\n" + line + "\r\n"]) == "\n" + line + "\r\n" + Concat([]);
      assert Terminated([line]) == line + "\r\n" + Terminated([]);
    }
    BlankThenLines([line]);
  }

  /** Device lines after a blank line are published exactly, the blank line left out. */
  lemma BlankThenLines(lines: seq<string>)
    requires forall k :: 0 <= k < |lines| ==> Plain(lines[k]) && lines[k] != ""
    ensures Feed("", "" + "\r\n" + Terminated(lines)) == Cut(lines, "")
  {
    BlankLineSkipped(Terminated(lines));
    FeedWholeLines(lines);
  }

  /** A blank line at the start of a line is not published. */
  lemma BlankLineSkipped(rest: string)
    ensures Feed("", "" + "\r\n" + rest) == Feed("", rest)
  {
    FeedLine("", "", rest);
    assert "" + "" + "\r" == "\r";
    assert Completed("\r") == "";
    assert [] + Feed("", rest).lines == Feed("", rest).lines;
  }

  /** The corrected framing state: the partial line received so far. */
  class LineAssembler {
    var pending: string

    constructor ()
      ensures pending == ""
    {
      pending := "";
    }

    /** Handle one chunk: publish the lines it completes and keep the partial line after them. */
    method Receive(chunk: string) returns (lines: seq<string>)
      modifies this
      ensures Cut(lines, pending) == Feed(old(pending), chunk)
    {
      lines := [];
      var i := 0;
      while i < |chunk|
        invariant 0 <= i <= |chunk|
        invariant Feed(old(pending), chunk)
          == Cut(lines + Feed(pending, chunk[i..]).lines, Feed(pending, chunk[i..]).pending)
      {
        ghost var before := Feed(pending, chunk[i..]);
        assert chunk[i..][0] == chunk[i] && chunk[i..][1..] == chunk[i + 1..];
        if chunk[i] == '\n' {
          var line := TrimSuffix(pending, "\r");
          ghost var after := Feed("", chunk[i + 1..]);
          if line != "" {
            lines := lines + [line];
            assert before.lines == [line] + after.lines;
          } else {
            assert before.lines == after.lines;
          }
          pending := "";
        } else {
          pending := pending + [chunk[i]];
        }
        i := i + 1;
      }
      assert chunk[i..] == [];
    }
  }
}
