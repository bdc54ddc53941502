/**
  The gantry controller: a GRBL motion controller behind a serial link.

  A move is sent as its G-code text and must be acknowledged with two "ok" lines; the
  controller is then polled with "?" until its status line reports that it is no longer
  running. Any failure starts the whole exchange again, for ever: the loops of the
  controller are modelled with a fuel argument that counts exchanges, and a result of
  None means the controller would still be trying when the fuel ran out.
*/
module Gantry {
  import opened Wrappers
  import opened Text
  import opened SerialComms
  import GCode

  // ------------------------------------------------------------------ status line

  /** A controller status: whether it is running, and the machine and work positions. */
  datatype Status = Status(running: bool, mpos: GCode.Vec3, wpos: GCode.Vec3)

  /** The zero status a failed probe reports. */
  const ZeroStatus: Status := Status(false, [0.0, 0.0, 0.0], [0.0, 0.0, 0.0])

  /** A status together with the flag that says whether it was read. */
  datatype Probe = Probe(status: Status, ok: bool)

  /** The literal text before each of the six numbers of `MPos:%g,%g,%g,WPos:%g,%g,%g`. */
  const PositionLabels: seq<string> := ["MPos:", ",", ",", ",WPos:", ",", ","]

  /** A scanning format made of literals each followed by a %g verb. */
  function Pattern(labels: seq<string>): (format: seq<Verb>)
    ensures CountFloats(format) == |labels|
  {
    if labels == [] then [] else [Lit(labels[0]), Float] + Pattern(labels[1..])
  }

  /** The text between the first comma and the closing bracket of a status line. */
  function StatusBody(line: string): string
  {
    TrimSuffix(TrimPrefix(line, "<"), ">")
  }

  /**
    The status parser: strip one "<" and one ">", take the state up to the first comma,
    then scan the six position numbers after it. Every failure reports the zero status.
  */
  function ParseStatus(line: string): (p: Probe)
    ensures !p.ok ==> p.status == ZeroStatus
  {
    var body := StatusBody(line);
    var idx := Index(body, ',');
    if idx == -1 then Probe(ZeroStatus, false)
    else
      var state := body[..idx];
      if |body| <= idx + 1 then Probe(ZeroStatus, false)
      else
        var scanned := Scanf(body[idx + 1..], Pattern(PositionLabels));
        if |scanned.values| != 6 || !scanned.ok then Probe(ZeroStatus, false)
        else Probe(Status(state == "Run", scanned.values[..3], scanned.values[3..]), true)
  }

  /**
    A status line is accepted exactly when it has a comma with text after it and all six
    position numbers after the first comma scan; the positions are then those six numbers.
  */
  lemma StatusNeedsSixNumbers(line: string)
    ensures var body := StatusBody(line); var i := Index(body, ',');
      ParseStatus(line).ok <==> 0 <= i < |body| - 1 && Scanf(body[i + 1..], Pattern(PositionLabels)).ok
    ensures var body := StatusBody(line); var i := Index(body, ',');
      ParseStatus(line).ok ==> (
        && 0 <= i < |body| - 1
        && ParseStatus(line).status.mpos + ParseStatus(line).status.wpos
           == Scanf(body[i + 1..], Pattern(PositionLabels)).values)
  {
    var body := StatusBody(line);
    var i := Index(body, ',');
    if i == -1 || |body| <= i + 1 {
      assert !ParseStatus(line).ok;
    } else {
      var scanned := Scanf(body[i + 1..], Pattern(PositionLabels));
      var p := ParseStatus(line);
      if scanned.ok {
        assert |scanned.values| == 6;
        assert p == Probe(Status(body[..i] == "Run", scanned.values[..3], scanned.values[3..]), true);
        assert scanned.values[..3] + scanned.values[3..] == scanned.values;
      } else {
        assert p == Probe(ZeroStatus, false);
      }
    }
  }

  /** A status line without a comma, or with nothing after its first comma, is rejected. */
  lemma StatusNeedsComma(line: string)
    ensures ',' !in StatusBody(line) ==> ParseStatus(line) == Probe(ZeroStatus, false)
    ensures ',' in StatusBody(line) && Index(StatusBody(line), ',') == |StatusBody(line)| - 1
      ==> ParseStatus(line) == Probe(ZeroStatus, false)
  {
  }

  /** A parsed status is running exactly when the text before the first comma is "Run". */
  lemma RunningIffRun(line: string)
    requires ParseStatus(line).ok
    ensures var body := StatusBody(line);
      ',' in body && (ParseStatus(line).status.running <==> body[..Index(body, ',')] == "Run")
  {
  }

  /** The values printed with %.2f after each label, as a status line writes them. */
  function Fill(labels: seq<string>, xs: seq<real>): string
    requires |labels| == |xs|
  {
    if labels == [] then "" else labels[0] + Fixed2(xs[0]) + Fill(labels[1..], xs[1..])
  }

  function Rounded(xs: seq<real>): (r: seq<real>)
    ensures |r| == |xs| && forall k :: 0 <= k < |xs| ==> r[k] == Round2(xs[k])
  {
    if xs == [] then [] else [Round2(xs[0])] + Rounded(xs[1..])
  }

  /** Labels that cannot be mistaken for part of a number. */
  predicate Separating(labels: seq<string>)
  {
    forall k :: 0 <= k < |labels| ==> |labels[k]| > 0 && !IsDigit(labels[k][0])
  }

  /** Scanning numbers printed after their labels gives the printed values back, in order. */
  lemma {:induction false} ScanFill(labels: seq<string>, xs: seq<real>, tail: string)
    requires |labels| == |xs| && Separating(labels)
    requires tail == [] || !IsDigit(tail[0])
    ensures Scanf(Fill(labels, xs) + tail, Pattern(labels)) == Scanned(Rounded(xs), true)
    decreases |labels|
  {
    if labels == [] {
      assert Fill(labels, xs) + tail == tail;
    } else {
      var rest := Fill(labels[1..], xs[1..]) + tail;
      FillStep(labels, xs, tail);
      ScanFill(labels[1..], xs[1..], tail);
      ScanOneField(labels[0], xs[0], rest, Pattern(labels[1..]));
      assert Rounded(xs) == [Round2(xs[0])] + Rounded(xs[1..]);
    }
  }

  /** The first label and number of a filled-in line, and what follows them. */
  lemma FillStep(labels: seq<string>, xs: seq<real>, tail: string)
    requires |labels| == |xs| > 0 && Separating(labels)
    requires tail == [] || !IsDigit(tail[0])
    ensures Fill(labels, xs) + tail == labels[0] + (Fixed2(xs[0]) + (Fill(labels[1..], xs[1..]) + tail))
    ensures var rest := Fill(labels[1..], xs[1..]) + tail; rest == [] || !IsDigit(rest[0])
    ensures Separating(labels[1..])
    ensures Pattern(labels) == [Lit(labels[0]), Float] + Pattern(labels[1..])
  {
    var rest := Fill(labels[1..], xs[1..]) + tail;
    if |labels| > 1 {
      assert Fill(labels[1..], xs[1..]) == labels[1] + Fixed2(xs[1]) + Fill(labels[2..], xs[2..]);
      assert rest[0] == labels[1][0];
    }
  }

  lemma ScanOneField(prefix: string, x: real, rest: string, format: seq<Verb>)
    requires rest == [] || !IsDigit(rest[0])
    ensures Scanf(prefix + (Fixed2(x) + rest), [Lit(prefix), Float] + format)
      == Scanned([Round2(x)] + Scanf(rest, format).values, Scanf(rest, format).ok)
  {
    assert [Lit(prefix), Float] + format == [Lit(prefix)] + ([Float] + format);
    ScanLiteral(prefix, Fixed2(x) + rest, [Float] + format);
    ScanNumber(x, rest, format);
  }

  /** A literal that matches is skipped. */
  lemma ScanLiteral(prefix: string, tail: string, format: seq<Verb>)
    ensures Scanf(prefix + tail, [Lit(prefix)] + format) == Scanf(tail, format)
  {
    var input := prefix + tail;
    assert HasPrefix(input, prefix);
    assert input[|prefix|..] == tail;
    assert ([Lit(prefix)] + format)[0] == Lit(prefix);
    assert ([Lit(prefix)] + format)[1..] == format;
  }

  /** A number printed with %.2f is scanned as its printed value. */
  lemma ScanNumber(x: real, rest: string, format: seq<Verb>)
    requires rest == [] || !IsDigit(rest[0])
    ensures Scanf(Fixed2(x) + rest, [Float] + format)
      == Scanned([Round2(x)] + Scanf(rest, format).values, Scanf(rest, format).ok)
  {
    ScanFixed2(x, rest);
    assert (Fixed2(x) + rest)[|Fixed2(x)|..] == rest;
    assert ([Float] + format)[0] == Float;
    assert ([Float] + format)[1..] == format;
  }

  /** A status line as the controller prints it, with two decimals. */
  function StatusLine(state: string, mpos: GCode.Vec3, wpos: GCode.Vec3): string
  {
    "<" + state + "," + Fill(PositionLabels, mpos + wpos) + ">"
  }

  /** Parsing a printed status line gives its state test and its positions back. */
  lemma ParseStatusLine(state: string, mpos: GCode.Vec3, wpos: GCode.Vec3)
    requires ',' !in state
    ensures ParseStatus(StatusLine(state, mpos, wpos))
      == Probe(Status(state == "Run", Rounded(mpos), Rounded(wpos)), true)
  {
    var fill := Fill(PositionLabels, mpos + wpos);
    StatusLineBody(state, mpos, wpos);
    ParseSplitBody(StatusLine(state, mpos, wpos), state, fill);
    assert fill + "" == fill;
    PositionLabelsSeparate();
    ScanFill(PositionLabels, mpos + wpos, "");
    RoundedHalves(mpos, wpos);
  }

  lemma PositionLabelsSeparate()
    ensures Separating(PositionLabels)
  {
    assert !IsDigit('M') && !IsDigit(',');
  }

  lemma RoundedHalves(mpos: GCode.Vec3, wpos: GCode.Vec3)
    ensures |Rounded(mpos + wpos)| == 6
    ensures Rounded(mpos + wpos)[..3] == Rounded(mpos) && Rounded(mpos + wpos)[3..] == Rounded(wpos)
  {
    var values := Rounded(mpos + wpos);
    assert values[..3] == Rounded(mpos);
    assert values[3..] == Rounded(wpos);
  }

  /** Once the body is split at its first comma, parsing is scanning what follows the comma. */
  lemma ParseSplitBody(line: string, state: string, rest: string)
    requires StatusBody(line) == state + "," + rest && ',' !in state && |rest| > 0
    ensures var scanned := Scanf(rest, Pattern(PositionLabels));
      ParseStatus(line) ==
        if |scanned.values| != 6 || !scanned.ok then Probe(ZeroStatus, false)
        else Probe(Status(state == "Run", scanned.values[..3], scanned.values[3..]), true)
  {
    var body := StatusBody(line);
    IndexAfterPrefix(state, ',', rest);
    assert body[..|state|] == state;
    assert body[|state| + 1..] == rest;
  }

  /** Stripping the brackets of a printed status line leaves the state, a comma and the positions. */
  lemma StatusLineBody(state: string, mpos: GCode.Vec3, wpos: GCode.Vec3)
    ensures var fill := Fill(PositionLabels, mpos + wpos);
      StatusBody(StatusLine(state, mpos, wpos)) == state + "," + fill && |fill| > 0
  {
    var fill := Fill(PositionLabels, mpos + wpos);
    var body := state + "," + fill;
    var line := StatusLine(state, mpos, wpos);
    assert fill == "MPos:" + Fixed2(mpos[0]) + Fill(PositionLabels[1..], (mpos + wpos)[1..]);
    assert line == "<" + (body + ">");
    assert TrimPrefix(line, "<") == body + ">";
    assert TrimSuffix(body + ">", ">") == body;
  }

  // ------------------------------------------------------------------ exchanges

  /** The result of a status probe and the link after it. */
  datatype Probed = Probed(probe: Probe, link: LinkState)

  /** The status query and the number of lines the controller answers it with. */
  const StatusQuery: seq<string> := ["?"]
  const StatusReplies: nat := 3

  /** getStatus: request "?" with three responses expected, and parse the first. */
  function StatusProbe(s: LinkState): Probed
  {
    var r := Request(s, StatusQuery, StatusReplies);
    if !r.ok then Probed(Probe(ZeroStatus, false), r.link)
    else if |r.lines| == 0 then Probed(Probe(ZeroStatus, false), r.link)
    else Probed(ParseStatus(r.lines[0]), r.link)
  }

  /**
    A status probe writes "?" once and waits for three lines; it succeeds exactly when the
    write succeeds and three lines arrive, and then only the first of them is parsed.
  */
  lemma StatusProbeUsesFirstOfThree(s: LinkState)
    ensures var p := StatusProbe(s);
      var arrived := FirstFailure(s.outcomes, 1) == 1 && FirstMissing(s.incoming, 3) == 3;
      && (!arrived ==> p.probe == Probe(ZeroStatus, false))
      && (arrived ==> p.probe == ParseStatus(s.incoming[0].value))
      && p.link.sent == s.sent + ["?"]
  {
    RequestAllOrNothing(s, ["?"], 3);
    WriteAllStopsAtFirstFailure(s, ["?"]);
    var w := WriteAll(s, ["?"]);
    var r := Request(s, ["?"], 3);
    if w.ok {
      CollectAllOrNothing(w.link, 3, []);
    }
    if r.ok {
      LinesOfArrivals(s.incoming[..3]);
      assert s.incoming[..3][0] == s.incoming[0];
    }
    assert ["?"][..WrittenCount(s.outcomes, 1)] == ["?"];
  }

  /** The exchange that sends a move: its text out, two "ok" lines back. */
  function MoveTransmission(text: string): Transmission
  {
    Transmission([text], ["ok", "ok"])
  }

  /** How a device loop ends: Some(true) when it returns, None while it is still trying. */
  datatype Outcome = Outcome(done: Option<bool>, link: LinkState, last: Probe)

  /** Where the polling loop stops: the link, the fuel left and the last probe. */
  datatype Waited = Waited(link: LinkState, fuel: nat, probe: Probe)

  /**
    The polling loop of HandleGcode: probe again while the last probe succeeded and
    reports the controller running, one unit of fuel per probe.
  */
  function Wait(s: LinkState, fuel: nat, probe: Probe): (w: Waited)
    ensures w.fuel <= fuel
    ensures w.fuel > 0 ==> !(w.probe.ok && w.probe.status.running)
    decreases fuel
  {
    if probe.ok && probe.status.running && fuel > 0 then
      var p := StatusProbe(s);
      Wait(p.link, fuel - 1, p.probe)
    else Waited(s, fuel, probe)
  }

  /** One more poll while the controller reports running: `next` is that poll's outcome. */
  lemma WaitStep(s: LinkState, fuel: nat, probe: Probe, next: Probed)
    requires probe.ok && probe.status.running && fuel > 0
    requires next == StatusProbe(s)
    ensures Wait(s, fuel, probe) == Wait(next.link, fuel - 1, next.probe)
  {
  }

  /** Polling stops once the controller is not running, a probe fails or the fuel is spent. */
  lemma WaitStops(s: LinkState, fuel: nat, probe: Probe)
    requires !(probe.ok && probe.status.running && fuel > 0)
    ensures Wait(s, fuel, probe) == Waited(s, fuel, probe)
  {
  }

  /**
    HandleGcode from the top of its loop, with fuel for that many more attempts and polls.
    `last` is the most recent status probe.
  */
  function Exchange(s: LinkState, text: string, fuel: nat, last: Probe): (r: Outcome)
    decreases fuel, 0
  {
    if fuel == 0 then Outcome(None, s, last)
    else
      var c := Command(s, [MoveTransmission(text)]);
      if !c.ok then Exchange(c.link, text, fuel - 1, last)
      else
        var p := StatusProbe(c.link);
        Resume(Wait(p.link, fuel - 1, p.probe), text)
  }

  /**
    HandleGcode once polling has stopped: still polling when the fuel ran out, back to
    the top after a failed probe, done when the controller reported it is not running.
  */
  function Resume(w: Waited, text: string): (r: Outcome)
    decreases w.fuel, 1
  {
    if w.probe.ok && w.probe.status.running then Outcome(None, w.link, w.probe)
    else if !w.probe.ok then Exchange(w.link, text, w.fuel, w.probe)
    else Outcome(Some(true), w.link, w.probe)
  }

  /** A move that is not acknowledged is sent again. */
  lemma AfterRefusal(s: LinkState, text: string, fuel: nat, last: Probe)
    requires !Command(s, [MoveTransmission(text)]).ok
    ensures Exchange(s, text, fuel + 1, last) == Exchange(Command(s, [MoveTransmission(text)]).link, text, fuel, last)
  {
  }

  /** An acknowledged move is followed by a status probe and the polling loop. */
  lemma AfterAcknowledgement(s: LinkState, text: string, fuel: nat, last: Probe)
    requires Command(s, [MoveTransmission(text)]).ok
    ensures var p := StatusProbe(Command(s, [MoveTransmission(text)]).link);
      Exchange(s, text, fuel + 1, last) == Resume(Wait(p.link, fuel, p.probe), text)
  {
  }

  /**
    HandleGcode never reports failure, and it returns only right after a status probe
    that succeeded and reported the controller not running.
  */
  lemma {:induction false} ExchangeOnlySucceeds(s: LinkState, text: string, fuel: nat, last: Probe)
    ensures Exchange(s, text, fuel, last).done != Some(false)
    ensures Exchange(s, text, fuel, last).done == Some(true) ==>
      Exchange(s, text, fuel, last).last.ok && !Exchange(s, text, fuel, last).last.status.running
    decreases fuel
  {
    if fuel > 0 {
      var c := Command(s, [MoveTransmission(text)]);
      if !c.ok {
        ExchangeOnlySucceeds(c.link, text, fuel - 1, last);
      } else {
        var p := StatusProbe(c.link);
        var w := Wait(p.link, fuel - 1, p.probe);
        if !w.probe.ok {
          ExchangeOnlySucceeds(w.link, text, w.fuel, w.probe);
        }
      }
    }
  }

  /** Sending a move writes its text and nothing else, whatever comes back. */
  lemma MoveWritesText(s: LinkState, text: string)
    ensures Command(s, [MoveTransmission(text)]).link.sent == s.sent + [text]
  {
    WriteAllStopsAtFirstFailure(s, [text]);
    var w := WriteAll(s, [text]);
    if w.ok {
      CollectAllOrNothing(w.link, 2, []);
    }
  }

  /** Polling writes nothing but status queries. */
  lemma {:induction false} WaitWrites(s: LinkState, fuel: nat, probe: Probe, allowed: set<string>)
    requires "?" in allowed
    ensures Appended(s.sent, Wait(s, fuel, probe).link.sent, allowed)
    decreases fuel
  {
    if probe.ok && probe.status.running && fuel > 0 {
      var p := StatusProbe(s);
      StatusProbeUsesFirstOfThree(s);
      WaitWrites(p.link, fuel - 1, p.probe, allowed);
      AppendedTrans(s.sent, p.link.sent, Wait(s, fuel, probe).link.sent, allowed);
    }
  }

  /**
    HandleGcode writes only the move's text and status queries, after everything written
    before, and the first thing it writes is the move.
  */
  lemma {:induction false} ExchangeWrites(s: LinkState, text: string, fuel: nat, last: Probe)
    ensures var r := Exchange(s, text, fuel, last);
      && Appended(s.sent, r.link.sent, {text, "?"})
      && (fuel > 0 ==> |s.sent| < |r.link.sent| && r.link.sent[|s.sent|] == text)
    decreases fuel, 2
  {
    if fuel > 0 {
      var r := Exchange(s, text, fuel, last);
      var c := Command(s, [MoveTransmission(text)]);
      MoveWritesText(s, text);
      AfterMoveWrites(s, text, fuel, last);
      AppendedTrans(s.sent, c.link.sent, r.link.sent, {text, "?"});
      assert r.link.sent[..|c.link.sent|][|s.sent|] == c.link.sent[|s.sent|];
    }
  }

  /** What HandleGcode writes after sending the move once. */
  lemma {:induction false} AfterMoveWrites(s: LinkState, text: string, fuel: nat, last: Probe)
    requires fuel > 0
    ensures Appended(Command(s, [MoveTransmission(text)]).link.sent, Exchange(s, text, fuel, last).link.sent, {text, "?"})
    decreases fuel, 1
  {
    var allowed := {text, "?"};
    var c := Command(s, [MoveTransmission(text)]);
    if !c.ok {
      ExchangeWrites(c.link, text, fuel - 1, last);
    } else {
      var p := StatusProbe(c.link);
      StatusProbeUsesFirstOfThree(c.link);
      var w := Wait(p.link, fuel - 1, p.probe);
      WaitWrites(p.link, fuel - 1, p.probe, allowed);
      ResumeWrites(w, text);
      AppendedTrans(c.link.sent, p.link.sent, w.link.sent, allowed);
      AppendedTrans(c.link.sent, w.link.sent, Resume(w, text).link.sent, allowed);
    }
  }

  /** What HandleGcode writes once polling has stopped. */
  lemma {:induction false} ResumeWrites(w: Waited, text: string)
    ensures Appended(w.link.sent, Resume(w, text).link.sent, {text, "?"})
    decreases w.fuel, 3
  {
    if !w.probe.ok {
      ExchangeWrites(w.link, text, w.fuel, w.probe);
    }
  }

  /**
    When the move is acknowledged and the first status reports an idle controller,
    HandleGcode returns after that one exchange and one probe.
  */
  lemma ExchangeHappyPath(s: LinkState, text: string, fuel: nat, last: Probe)
    requires fuel > 0
    requires Command(s, [MoveTransmission(text)]).ok
    requires var p := StatusProbe(Command(s, [MoveTransmission(text)]).link).probe;
      p.ok && !p.status.running
    ensures Exchange(s, text, fuel, last)
      == Outcome(Some(true), StatusProbe(Command(s, [MoveTransmission(text)]).link).link,
                 StatusProbe(Command(s, [MoveTransmission(text)]).link).probe)
  {
  }

  /**
    On a link where no line ever arrives, no move is acknowledged, so HandleGcode keeps
    resending the move and never returns, however long it runs; each attempt writes at
    most the move itself.
  */
  lemma {:induction false} SilentLinkNeverReturns(s: LinkState, text: string, fuel: nat, last: Probe)
    requires s.incoming == []
    ensures Exchange(s, text, fuel, last).done == None
    ensures |Exchange(s, text, fuel, last).link.sent| <= |s.sent| + fuel
    decreases fuel
  {
    if fuel > 0 {
      var c := Command(s, [MoveTransmission(text)]);
      SilentCommand(s, MoveTransmission(text));
      SilentLinkNeverReturns(c.link, text, fuel - 1, last);
    }
  }

  // ------------------------------------------------------------------ bounded retry

  /**
    HandleGcode as its `retry` argument and its caller's "failed to position gantry"
    message intend: at most `retry` attempts, then failure. Polling within an attempt
    still has `fuel` probes. It succeeds only right after a probe reporting the
    controller not running, and is left polling only while the controller reports running.
  */
  function BoundedExchange(s: LinkState, text: string, retry: int, fuel: nat, last: Probe): (r: Outcome)
    ensures r.done == Some(true) ==> r.last.ok && !r.last.status.running
    ensures r.done == None ==> r.last.ok && r.last.status.running
    decreases if retry > 0 then retry else 0
  {
    if retry <= 0 then Outcome(Some(false), s, last)
    else
      var c := Command(s, [MoveTransmission(text)]);
      if !c.ok then BoundedExchange(c.link, text, retry - 1, fuel, last)
      else
        var p := StatusProbe(c.link);
        var w := Wait(p.link, fuel, p.probe);
        if w.probe.ok && w.probe.status.running then Outcome(None, w.link, w.probe)
        else if !w.probe.ok then BoundedExchange(w.link, text, retry - 1, fuel, w.probe)
        else Outcome(Some(true), w.link, w.probe)
  }

  /** The move written n times. */
  function Copies(text: string, n: nat): (r: seq<string>)
    ensures |r| == n && forall k :: 0 <= k < n ==> r[k] == text
  {
    if n == 0 then [] else [text] + Copies(text, n - 1)
  }

  /**
    With a retry budget, a link where no line arrives makes HandleGcode report failure
    after exactly `retry` attempts, each writing the move once.
  */
  lemma {:induction false} BoundedSilentLinkFails(s: LinkState, text: string, retry: nat, fuel: nat, last: Probe)
    requires s.incoming == []
    ensures BoundedExchange(s, text, retry, fuel, last).done == Some(false)
    ensures BoundedExchange(s, text, retry, fuel, last).link.sent == s.sent + Copies(text, retry)
    decreases retry
  {
    if retry == 0 {
      assert s.sent + Copies(text, 0) == s.sent;
    } else {
      var c := Command(s, [MoveTransmission(text)]);
      SilentCommand(s, MoveTransmission(text));
      MoveWritesText(s, text);
      BoundedSilentLinkFails(c.link, text, retry - 1, fuel, last);
      assert s.sent + [text] + Copies(text, retry - 1) == s.sent + Copies(text, retry);
    }
  }

  /**
    The budget changes nothing when the first attempt gets its move acknowledged and
    its polling ends on a successful probe: HandleGcode as written does the same.
  */
  lemma BoundedAgreesOnFirstAttempt(s: LinkState, text: string, retry: int, fuel: nat, last: Probe)
    requires retry > 0
    requires Command(s, [MoveTransmission(text)]).ok
    requires var p := StatusProbe(Command(s, [MoveTransmission(text)]).link);
      Wait(p.link, fuel, p.probe).probe.ok
    ensures BoundedExchange(s, text, retry, fuel, last) == Exchange(s, text, fuel + 1, last)
  {
  }

  // ------------------------------------------------------------------ unlock handshake

  /** The exchange that detects a locked controller: nothing sent, the lock notice expected. */
  const LockProbe: Transmission := Transmission([], ["['$H'|'$X' to unlock]"])

  /** The exchange that unlocks it. */
  const UnlockTransmission: Transmission := Transmission(["$X"], ["[Caution: Unlocked]", "ok", "ok"])

  /**
    How disableLock ends: no lock notice came; the operator agreed and the controller is
    unlocked; the operator declined and the program exits; the operator never gave a
    valid answer; or the unlock exchange was still failing when the fuel ran out.
  */
  datatype LockOutcome = NoLockReported | Unlocked | Declined | AwaitingAnswer | Unlocking

  datatype LockRun = LockRun(outcome: LockOutcome, link: LinkState, consumed: nat)

  /** The index of the first operator answer that is "Y" or "n", or the number of answers. */
  function FirstChoice(answers: seq<string>): (k: nat)
    ensures k <= |answers|
    ensures forall i :: 0 <= i < k ==> answers[i] != "Y" && answers[i] != "n"
    ensures k < |answers| ==> answers[k] == "Y" || answers[k] == "n"
  {
    if answers == [] then 0
    else if answers[0] == "Y" || answers[0] == "n" then 0
    else 1 + FirstChoice(answers[1..])
  }

  /** An exchange repeated until it succeeds, at most fuel times. */
  function Retry(s: LinkState, t: Transmission, fuel: nat): (r: Written)
    decreases fuel
  {
    if fuel == 0 then Written(false, s)
    else
      var c := Command(s, [t]);
      if c.ok then c else Retry(c.link, t, fuel - 1)
  }

  /** disableLock with the operator's answers in order and fuel for the unlock retries. */
  function Unlock(s: LinkState, answers: seq<string>, fuel: nat): LockRun
  {
    var probe := Command(s, [LockProbe]);
    if !probe.ok then LockRun(NoLockReported, probe.link, 0)
    else
      var k := FirstChoice(answers);
      if k == |answers| then LockRun(AwaitingAnswer, probe.link, k)
      else if answers[k] == "n" then LockRun(Declined, probe.link, k + 1)
      else
        var u := Retry(probe.link, UnlockTransmission, fuel);
        LockRun(if u.ok then Unlocked else Unlocking, u.link, k + 1)
  }

  /**
    "$X" goes out only after the controller reported the lock and the operator's first
    valid answer was "Y": the run reaches the unlock step (Unlocked or Unlocking) exactly
    then, and is Unlocked exactly when, in addition, an unlock exchange succeeded. Without
    that consent nothing is written after the probe. "n" as first valid answer always exits.
  */
  lemma UnlockNeedsConsent(s: LinkState, answers: seq<string>, fuel: nat)
    ensures var r := Unlock(s, answers, fuel);
      var p := Command(s, [LockProbe]);
      var k := FirstChoice(answers);
      && ((r.outcome == Unlocked || r.outcome == Unlocking) <==>
            p.ok && k < |answers| && answers[k] == "Y")
      && (r.outcome == Unlocked <==>
            p.ok && k < |answers| && answers[k] == "Y" && Retry(p.link, UnlockTransmission, fuel).ok)
      && (r.outcome != Unlocked && r.outcome != Unlocking ==> r.link == p.link)
      && (r.outcome == Unlocked || r.outcome == Unlocking ==>
            r.link == Retry(p.link, UnlockTransmission, fuel).link && r.consumed == k + 1)
      && (r.outcome == Declined <==> p.ok && k < |answers| && answers[k] == "n")
      && (r.outcome == NoLockReported <==> !p.ok)
      && (r.outcome == AwaitingAnswer <==> p.ok && k == |answers|)
  {
    var probe := Command(s, [LockProbe]);
    var k := FirstChoice(answers);
    if !probe.ok {
      assert Unlock(s, answers, fuel) == LockRun(NoLockReported, probe.link, 0);
    } else if k == |answers| {
      assert Unlock(s, answers, fuel) == LockRun(AwaitingAnswer, probe.link, k);
    } else if answers[k] == "n" {
      assert Unlock(s, answers, fuel) == LockRun(Declined, probe.link, k + 1);
    } else {
      var u := Retry(probe.link, UnlockTransmission, fuel);
      assert answers[k] == "Y";
      assert Unlock(s, answers, fuel) == LockRun(if u.ok then Unlocked else Unlocking, u.link, k + 1);
    }
  }

  /**
    What disableLock writes: nothing when the operator did not agree (the lock probe sends
    nothing), and otherwise only "$X", at least once when an unlock exchange succeeded.
  */
  lemma UnlockWrites(s: LinkState, answers: seq<string>, fuel: nat)
    ensures var r := Unlock(s, answers, fuel);
      && Appended(s.sent, r.link.sent, {"$X"})
      && (r.outcome != Unlocked && r.outcome != Unlocking ==> r.link.sent == s.sent)
      && (r.outcome == Unlocked ==> |s.sent| < |r.link.sent| && r.link.sent[|s.sent|] == "$X")
  {
    var p := Command(s, [LockProbe]);
    ExchangeWritesRequests(s, LockProbe);
    UnlockNeedsConsent(s, answers, fuel);
    var r := Unlock(s, answers, fuel);
    if r.outcome == Unlocked || r.outcome == Unlocking {
      RetryWrites(p.link, UnlockTransmission, fuel);
    } else {
      assert r.link.sent[..|s.sent|] == s.sent;
    }
  }

  /** One exchange of at most one request hands exactly that request to the writer. */
  lemma ExchangeWritesRequests(s: LinkState, t: Transmission)
    requires |t.outgoing| <= 1
    ensures Command(s, [t]).link.sent == s.sent + t.outgoing
  {
    WriteAllStopsAtFirstFailure(s, t.outgoing);
    var w := WriteAll(s, t.outgoing);
    if w.ok {
      CollectAllOrNothing(w.link, |t.expected|, []);
    }
    assert t.outgoing[..WrittenCount(s.outcomes, |t.outgoing|)] == t.outgoing;
  }

  /** Retrying an exchange of one request writes that request once per attempt, and nothing else. */
  lemma {:induction false} RetryWrites(s: LinkState, t: Transmission, fuel: nat)
    requires |t.outgoing| == 1
    ensures var r := Retry(s, t, fuel);
      && Appended(s.sent, r.link.sent, {t.outgoing[0]})
      && (fuel > 0 ==> |s.sent| < |r.link.sent| && r.link.sent[|s.sent|] == t.outgoing[0])
    decreases fuel
  {
    var r := Retry(s, t, fuel);
    if fuel == 0 {
      assert r.link.sent[..|s.sent|] == s.sent;
    } else {
      var c := Command(s, [t]);
      ExchangeWritesRequests(s, t);
      assert c.link.sent == s.sent + [t.outgoing[0]];
      assert c.link.sent[..|s.sent|] == s.sent;
      if !c.ok {
        RetryWrites(c.link, t, fuel - 1);
        AppendedTrans(s.sent, c.link.sent, r.link.sent, {t.outgoing[0]});
        assert r.link.sent[..|c.link.sent|][|s.sent|] == c.link.sent[|s.sent|];
      }
    }
  }

  /** A retried exchange ends, as soon as one attempt succeeds, with the link that attempt leaves. */
  lemma {:induction false} RetryStopsAtSuccess(s: LinkState, t: Transmission, fuel: nat)
    ensures var r := Retry(s, t, fuel);
      r.ok ==> exists n :: 0 <= n < fuel && Command(Repeated(s, t, n), [t]) == r
    decreases fuel
  {
    if fuel > 0 {
      var c := Command(s, [t]);
      if c.ok {
        assert Repeated(s, t, 0) == s;
      } else {
        RetryStopsAtSuccess(c.link, t, fuel - 1);
        var r := Retry(s, t, fuel);
        if r.ok {
          var n :| 0 <= n < fuel - 1 && Command(Repeated(c.link, t, n), [t]) == r;
          RepeatedShift(s, t, n);
        }
      }
    }
  }

  /** The link after n failed attempts of an exchange. */
  function Repeated(s: LinkState, t: Transmission, n: nat): LinkState
    decreases n
  {
    if n == 0 then s else Repeated(Command(s, [t]).link, t, n - 1)
  }

  lemma RepeatedShift(s: LinkState, t: Transmission, n: nat)
    ensures Repeated(Command(s, [t]).link, t, n) == Repeated(s, t, n + 1)
  {
  }

  // ------------------------------------------------------------------ the controller

  /** The exchange a freshly opened gantry link must complete: nothing sent, the banner back. */
  const Greeting: Transmission := Transmission([], ["Grbl 0.9j ['$' for help]"])

  /** The unlock handshake on the first link that comes up, when one does. */
  function Connection(attempts: seq<LinkState>, answers: seq<string>, fuel: nat): LockRun
    requires FirstSetup(attempts, Greeting) < |attempts|
  {
    var k := FirstSetup(attempts, Greeting);
    Unlock(Command(attempts[k], [Greeting]).link, answers, fuel)
  }

  /** How Create ends: still retrying the serial set-up, or connected on some attempt. */
  datatype Startup = StillConnecting | Connected(attempt: nat, lock: LockOutcome)

  class GantryController {
    var port: Serial

    constructor (port: Serial)
      ensures this.port == port
    {
      this.port := port;
    }

    /** getStatus. */
    method GetStatus() returns (status: Status, success: bool)
      modifies port
      ensures Probed(Probe(status, success), port.State()) == StatusProbe(old(port.State()))
      ensures port.open == old(port.open)
    {
      var ok, incoming := port.HandleRequest(StatusQuery, StatusReplies);
      if !ok {
        return ZeroStatus, false;
      }
      if |incoming| == 0 {
        return ZeroStatus, false;
      }
      var p := ParseStatus(incoming[0]);
      return p.status, p.ok;
    }

    /**
      HandleGcode: send the move until it is acknowledged, then poll until the controller
      stops running; restart on any failure. `retry` is accepted and not used.
    */
    method HandleGcode(code: GCode.G01, retry: int, fuel: nat) returns (done: Option<bool>)
      modifies port
      ensures var r := Exchange(old(port.State()), GCode.ToString(code), fuel, Probe(ZeroStatus, false));
        done == r.done && port.State() == r.link
      ensures port.open == old(port.open)
    {
      var text := GCode.ToString(code);
      ghost var goal := Exchange(port.State(), text, fuel, Probe(ZeroStatus, false));
      ghost var last := Probe(ZeroStatus, false);
      var budget := fuel;
      while budget > 0
        invariant Exchange(port.State(), text, budget, last) == goal
        invariant port.open == old(port.open)
        decreases budget
      {
        ghost var before := port.State();
        budget := budget - 1;
        var acknowledged := port.HandleCommand([MoveTransmission(text)]);
        if !acknowledged {
          AfterRefusal(before, text, budget, last);
          continue;
        }
        var status, success := GetStatus();
        AfterAcknowledgement(before, text, budget, last);
        assert Resume(Wait(port.State(), budget, Probe(status, success)), text) == goal;
        status, success, budget := Poll(status, success, budget);
        if status.running && success {
          return None;
        }
        if !success {
          last := Probe(status, success);
          continue;
        }
        return Some(true);
      }
      return None;
    }

    /** The polling loop of HandleGcode: probe again while the controller reports it is running. */
    method Poll(status: Status, success: bool, budget: nat) returns (status': Status, success': bool, budget': nat)
      modifies port
      ensures Waited(port.State(), budget', Probe(status', success')) == Wait(old(port.State()), budget, Probe(status, success))
      ensures port.open == old(port.open)
    {
      ghost var goal := Wait(port.State(), budget, Probe(status, success));
      status', success', budget' := status, success, budget;
      while status'.running && success' && budget' > 0
        invariant Wait(port.State(), budget', Probe(status', success')) == goal
        invariant port.open == old(port.open)
        decreases budget'
      {
        ghost var before, probe := port.State(), Probe(status', success');
        status', success' := GetStatus();
        WaitStep(before, budget', probe, Probed(Probe(status', success'), port.State()));
        budget' := budget' - 1;
      }
      WaitStops(port.State(), budget', Probe(status', success'));
    }

    /**
      disableLock: when the controller reports its lock, ask the operator until the answer
      is "Y" or "n"; on "Y" repeat the unlock exchange until it succeeds, on "n" exit.
    */
    method DisableLock(answers: seq<string>, fuel: nat) returns (outcome: LockOutcome, consumed: nat)
      modifies port
      ensures LockRun(outcome, port.State(), consumed) == Unlock(old(port.State()), answers, fuel)
      ensures port.open == old(port.open)
    {
      var locked := port.HandleCommand([LockProbe]);
      if !locked {
        return NoLockReported, 0;
      }
      var selection := "";
      consumed := 0;
      while selection != "Y" && selection != "n"
        invariant consumed <= |answers| && consumed <= FirstChoice(answers) + 1
        invariant consumed == 0 ==> selection == ""
        invariant consumed > 0 ==> selection == answers[consumed - 1]
        invariant selection != "Y" && selection != "n" ==> consumed <= FirstChoice(answers)
        decreases |answers| - consumed
      {
        if consumed == |answers| {
          return AwaitingAnswer, consumed;
        }
        selection := answers[consumed];
        consumed := consumed + 1;
      }
      if selection != "Y" {
        return Declined, consumed;
      }
      ghost var agreed := port.State();
      var budget := fuel;
      while budget > 0
        invariant Retry(port.State(), UnlockTransmission, budget) == Retry(agreed, UnlockTransmission, fuel)
        invariant port.open == old(port.open)
        decreases budget
      {
        budget := budget - 1;
        var unlocked := port.HandleCommand([UnlockTransmission]);
        if unlocked {
          return Unlocked, consumed;
        }
      }
      return Unlocking, consumed;
    }
  }

  /**
    Create: set up the serial link, retrying with the next attempt until the banner
    arrives, then run the unlock handshake on it. `attempts` holds, in order, how the
    link behaves each time it is opened.
  */
  method Create(attempts: seq<LinkState>, answers: seq<string>, fuel: nat)
    returns (gantry: GantryController?, startup: Startup)
    ensures gantry == null <==> startup == StillConnecting
    ensures startup == StillConnecting <==> FirstSetup(attempts, Greeting) == |attempts|
    ensures gantry != null ==> fresh(gantry) && fresh(gantry.port) && gantry.port.open
    ensures gantry != null ==> (
      && FirstSetup(attempts, Greeting) < |attempts|
      && startup == Connected(FirstSetup(attempts, Greeting), Connection(attempts, answers, fuel).outcome)
      && gantry.port.State() == Connection(attempts, answers, fuel).link)
  {
    var i := 0;
    var connected := false;
    var link: Serial? := null;
    while !connected && i < |attempts|
      invariant 0 <= i <= |attempts|
      invariant !connected ==> i <= FirstSetup(attempts, Greeting)
      invariant connected ==> (
        && 0 < i && i - 1 == FirstSetup(attempts, Greeting) && link != null
        && fresh(link) && link.open
        && link.State() == Command(attempts[i - 1], [Greeting]).link)
      decreases |attempts| - i, if connected then 0 else 1
    {
      link, connected := Setup(attempts[i], Greeting.outgoing, Greeting.expected);
      i := i + 1;
    }
    if !connected {
      return null, StillConnecting;
    }
    gantry := new GantryController(link);
    var lock, _ := gantry.DisableLock(answers, fuel);
    startup := Connected(i - 1, lock);
  }
}
