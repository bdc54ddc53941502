/**
  The sewing-machine controller: a device that makes one stitch per "PULSE" command.

  A pulse must be acknowledged with "ACK"; the machine is then polled with "?" until it
  answers "IDLE". Any failure starts the whole exchange again, for ever: as for the gantry,
  the loop is modelled with a fuel argument and a result of None means the controller
  would still be trying when the fuel ran out.
*/
module SewingMachine {
  import opened Wrappers
  import opened SerialComms

  /** What the machine reports about itself. */
  datatype State = UNKNOWN | IDLE | RUNNING

  /** The status answer: exactly "IDLE" means idle, any other text means running. */
  function Classify(line: string): (st: State)
    ensures st != UNKNOWN
    ensures st == IDLE <==> line == "IDLE"
  {
    if line == "IDLE" then IDLE else RUNNING
  }

  /** A status together with the flag that says whether it was read. */
  datatype Reading = Reading(state: State, ok: bool)

  datatype Read = Read(reading: Reading, link: LinkState)

  /** The status query, answered with a single line. */
  const StatusQuery: seq<string> := ["?"]

  /** getStatus: request "?" with one response expected, and classify it. */
  function StatusProbe(s: LinkState): Read
  {
    var r := Request(s, StatusQuery, 1);
    if !r.ok then Read(Reading(UNKNOWN, false), r.link)
    else Read(Reading(Classify(r.lines[0]), true), r.link)
  }

  /**
    A status probe writes "?" and waits for one line. It fails, reporting UNKNOWN, unless
    the write succeeds and a line arrives; then the machine is IDLE exactly when that line
    is "IDLE", and RUNNING otherwise.
  */
  lemma StatusProbeClassifies(s: LinkState)
    ensures var p := StatusProbe(s);
      var arrived := FirstFailure(s.outcomes, 1) == 1 && FirstMissing(s.incoming, 1) == 1;
      && (p.reading.ok <==> arrived)
      && (!arrived ==> p.reading.state == UNKNOWN)
      && (arrived ==> p.reading.state != UNKNOWN
                      && (p.reading.state == IDLE <==> s.incoming[0] == Some("IDLE")))
      && p.link.sent == s.sent + ["?"]
  {
    RequestAllOrNothing(s, StatusQuery, 1);
    WriteAllStopsAtFirstFailure(s, StatusQuery);
    var w := WriteAll(s, StatusQuery);
    if w.ok {
      CollectAllOrNothing(w.link, 1, []);
    }
    if FirstFailure(s.outcomes, 1) == 1 && FirstMissing(s.incoming, 1) == 1 {
      LinesOfArrivals(s.incoming[..1]);
      assert s.incoming[..1][0] == s.incoming[0];
    }
    assert StatusQuery[..WrittenCount(s.outcomes, 1)] == ["?"];
  }

  /** The exchange that asks for one stitch. */
  const PulseTransmission: Transmission := Transmission(["PULSE"], ["ACK"])

  /** How Pulse ends: Some(true) when it returns, None while it is still trying. */
  datatype Outcome = Outcome(done: Option<bool>, link: LinkState, last: Reading)

  /** Where the polling loop stops: the link, the fuel left and the last reading. */
  datatype Waited = Waited(link: LinkState, fuel: nat, reading: Reading)

  /** The polling loop of Pulse: probe again while the machine reads as RUNNING, one unit of fuel per probe. */
  function Wait(s: LinkState, fuel: nat, reading: Reading): (w: Waited)
    ensures w.fuel <= fuel
    ensures w.fuel > 0 ==> !(w.reading.ok && w.reading.state == RUNNING)
    decreases fuel
  {
    if reading.state == RUNNING && reading.ok && fuel > 0 then
      var p := StatusProbe(s);
      Wait(p.link, fuel - 1, p.reading)
    else Waited(s, fuel, reading)
  }

  /** Pulse from the top of its loop, with fuel for that many more attempts and polls. */
  function Exchange(s: LinkState, fuel: nat, last: Reading): (r: Outcome)
    decreases fuel, 0
  {
    if fuel == 0 then Outcome(None, s, last)
    else
      var c := Command(s, [PulseTransmission]);
      if !c.ok then Exchange(c.link, fuel - 1, last)
      else
        var p := StatusProbe(c.link);
        Resume(Wait(p.link, fuel - 1, p.reading))
  }

  /** Pulse once polling has stopped: still polling, back to the top, or done. */
  function Resume(w: Waited): (r: Outcome)
    decreases w.fuel, 1
  {
    if w.reading.state == RUNNING && w.reading.ok then Outcome(None, w.link, w.reading)
    else if !w.reading.ok then Exchange(w.link, w.fuel, w.reading)
    else Outcome(Some(true), w.link, w.reading)
  }

  lemma AfterRefusal(s: LinkState, fuel: nat, last: Reading)
    requires !Command(s, [PulseTransmission]).ok
    ensures Exchange(s, fuel + 1, last) == Exchange(Command(s, [PulseTransmission]).link, fuel, last)
  {
  }

  lemma AfterAcknowledgement(s: LinkState, fuel: nat, last: Reading)
    requires Command(s, [PulseTransmission]).ok
    ensures var p := StatusProbe(Command(s, [PulseTransmission]).link);
      Exchange(s, fuel + 1, last) == Resume(Wait(p.link, fuel, p.reading))
  {
  }

  /**
    Pulse never reports failure, and it returns only right after a status probe that
    succeeded and read the machine as IDLE.
  */
  lemma {:induction false} PulseOnlySucceeds(s: LinkState, fuel: nat, last: Reading)
    ensures Exchange(s, fuel, last).done != Some(false)
    ensures Exchange(s, fuel, last).done == Some(true) ==> Exchange(s, fuel, last).last == Reading(IDLE, true)
    decreases fuel
  {
    if fuel > 0 {
      var c := Command(s, [PulseTransmission]);
      if !c.ok {
        PulseOnlySucceeds(c.link, fuel - 1, last);
      } else {
        var p := StatusProbe(c.link);
        var w := Wait(p.link, fuel - 1, p.reading);
        if !w.reading.ok {
          PulseOnlySucceeds(w.link, w.fuel, w.reading);
        } else if w.reading.state != RUNNING {
          StatusProbeNeverUnknown(p.link, fuel - 1, p.reading);
        }
      }
    }
  }

  /** A probe that succeeded never reads UNKNOWN, so neither does the reading polling stops at. */
  lemma {:induction false} StatusProbeNeverUnknown(s: LinkState, fuel: nat, reading: Reading)
    requires reading.ok ==> reading.state != UNKNOWN
    ensures var w := Wait(s, fuel, reading); w.reading.ok ==> w.reading.state != UNKNOWN
    decreases fuel
  {
    if reading.state == RUNNING && reading.ok && fuel > 0 {
      var p := StatusProbe(s);
      StatusProbeClassifies(s);
      StatusProbeNeverUnknown(p.link, fuel - 1, p.reading);
    }
  }

  /** When the pulse is acknowledged and the first reading is IDLE, Pulse returns at once. */
  lemma PulseHappyPath(s: LinkState, fuel: nat, last: Reading)
    requires fuel > 0 && Command(s, [PulseTransmission]).ok
    requires StatusProbe(Command(s, [PulseTransmission]).link).reading == Reading(IDLE, true)
    ensures Exchange(s, fuel, last)
      == Outcome(Some(true), StatusProbe(Command(s, [PulseTransmission]).link).link, Reading(IDLE, true))
  {
  }

  /** On a link where no line ever arrives, no pulse is acknowledged and Pulse never returns. */
  lemma {:induction false} SilentLinkNeverReturns(s: LinkState, fuel: nat, last: Reading)
    requires s.incoming == []
    ensures Exchange(s, fuel, last).done == None
    decreases fuel
  {
    if fuel > 0 {
      SilentCommand(s, PulseTransmission);
      SilentLinkNeverReturns(Command(s, [PulseTransmission]).link, fuel - 1, last);
    }
  }

  /** Sending a pulse writes "PULSE" and nothing else, whatever comes back. */
  lemma PulseWritesCommand(s: LinkState)
    ensures Command(s, [PulseTransmission]).link.sent == s.sent + ["PULSE"]
  {
    WriteAllStopsAtFirstFailure(s, ["PULSE"]);
    var w := WriteAll(s, ["PULSE"]);
    if w.ok {
      CollectAllOrNothing(w.link, 1, []);
    }
  }

  /** Polling writes nothing but status queries. */
  lemma {:induction false} WaitWrites(s: LinkState, fuel: nat, reading: Reading)
    ensures Appended(s.sent, Wait(s, fuel, reading).link.sent, {"PULSE", "?"})
    decreases fuel
  {
    if reading.state == RUNNING && reading.ok && fuel > 0 {
      var p := StatusProbe(s);
      StatusProbeClassifies(s);
      WaitWrites(p.link, fuel - 1, p.reading);
      AppendedTrans(s.sent, p.link.sent, Wait(s, fuel, reading).link.sent, {"PULSE", "?"});
    }
  }

  /**
    Pulse writes only "PULSE" and status queries, after everything written before, and
    the first thing it writes is "PULSE".
  */
  lemma {:induction false} PulseWrites(s: LinkState, fuel: nat, last: Reading)
    ensures var r := Exchange(s, fuel, last);
      && Appended(s.sent, r.link.sent, {"PULSE", "?"})
      && (fuel > 0 ==> |s.sent| < |r.link.sent| && r.link.sent[|s.sent|] == "PULSE")
    decreases fuel, 2
  {
    if fuel > 0 {
      var r := Exchange(s, fuel, last);
      var c := Command(s, [PulseTransmission]);
      PulseWritesCommand(s);
      AfterPulseWrites(s, fuel, last);
      AppendedTrans(s.sent, c.link.sent, r.link.sent, {"PULSE", "?"});
      assert r.link.sent[..|c.link.sent|][|s.sent|] == c.link.sent[|s.sent|];
    }
  }

  lemma {:induction false} AfterPulseWrites(s: LinkState, fuel: nat, last: Reading)
    requires fuel > 0
    ensures Appended(Command(s, [PulseTransmission]).link.sent, Exchange(s, fuel, last).link.sent, {"PULSE", "?"})
    decreases fuel, 1
  {
    var c := Command(s, [PulseTransmission]);
    if !c.ok {
      PulseWrites(c.link, fuel - 1, last);
    } else {
      var p := StatusProbe(c.link);
      StatusProbeClassifies(c.link);
      var w := Wait(p.link, fuel - 1, p.reading);
      WaitWrites(p.link, fuel - 1, p.reading);
      ResumeWrites(w);
      AppendedTrans(c.link.sent, p.link.sent, w.link.sent, {"PULSE", "?"});
      AppendedTrans(c.link.sent, w.link.sent, Resume(w).link.sent, {"PULSE", "?"});
    }
  }

  lemma {:induction false} ResumeWrites(w: Waited)
    ensures Appended(w.link.sent, Resume(w).link.sent, {"PULSE", "?"})
    decreases w.fuel, 3
  {
    if !w.reading.ok {
      PulseWrites(w.link, w.fuel, w.reading);
    }
  }

  /** The exchange a freshly opened link must complete: "?" out, "IDLE" back. */
  const Ready: Transmission := Transmission(["?"], ["IDLE"])

  class SewingMachineController {
    var port: Serial

    constructor (port: Serial)
      ensures this.port == port
    {
      this.port := port;
    }

    /** getStatus. */
    method GetStatus() returns (state: State, success: bool)
      modifies port
      ensures Read(Reading(state, success), port.State()) == StatusProbe(old(port.State()))
      ensures port.open == old(port.open)
    {
      var ok, incoming := port.HandleRequest(StatusQuery, 1);
      if !ok {
        return UNKNOWN, false;
      }
      if incoming[0] == "IDLE" {
        return IDLE, true;
      }
      return RUNNING, true;
    }

    /**
      Pulse: send the pulse until it is acknowledged, then poll until the machine is idle;
      restart on any failure. `retry` is accepted and not used.
    */
    method Pulse(retry: int, fuel: nat) returns (done: Option<bool>)
      modifies port
      ensures var r := Exchange(old(port.State()), fuel, Reading(UNKNOWN, false));
        done == r.done && port.State() == r.link
      ensures port.open == old(port.open)
    {
      ghost var goal := Exchange(port.State(), fuel, Reading(UNKNOWN, false));
      ghost var last := Reading(UNKNOWN, false);
      var budget := fuel;
      while budget > 0
        invariant Exchange(port.State(), budget, last) == goal
        invariant port.open == old(port.open)
        decreases budget
      {
        ghost var before := port.State();
        budget := budget - 1;
        var acknowledged := port.HandleCommand([PulseTransmission]);
        if !acknowledged {
          AfterRefusal(before, budget, last);
          continue;
        }
        var status, success := GetStatus();
        AfterAcknowledgement(before, budget, last);
        assert Resume(Wait(port.State(), budget, Reading(status, success))) == goal;
        status, success, budget := Poll(status, success, budget);
        if status == RUNNING && success {
          return None;
        }
        if !success {
          last := Reading(status, success);
          continue;
        }
        return Some(true);
      }
      return None;
    }

    /** The polling loop of Pulse: probe again while the machine reads RUNNING. */
    method Poll(status: State, success: bool, budget: nat) returns (status': State, success': bool, budget': nat)
      modifies port
      ensures Waited(port.State(), budget', Reading(status', success')) == Wait(old(port.State()), budget, Reading(status, success))
      ensures port.open == old(port.open)
    {
      ghost var goal := Wait(port.State(), budget, Reading(status, success));
      status', success', budget' := status, success, budget;
      while status' == RUNNING && success' && budget' > 0
        invariant Wait(port.State(), budget', Reading(status', success')) == goal
        invariant port.open == old(port.open)
        decreases budget'
      {
        budget' := budget' - 1;
        status', success' := GetStatus();
      }
    }
  }

  /**
    Create: set up the serial link, retrying with the next attempt until the machine
    answers "IDLE" to "?". `attempts` holds, in order, how the link behaves each time it
    is opened.
  */
  method Create(attempts: seq<LinkState>) returns (machine: SewingMachineController?)
    ensures machine == null <==> FirstSetup(attempts, Ready) == |attempts|
    ensures machine != null ==> (
      && fresh(machine) && fresh(machine.port) && machine.port.open
      && machine.port.State() == Command(attempts[FirstSetup(attempts, Ready)], [Ready]).link)
  {
    var i := 0;
    var connected := false;
    var link: Serial? := null;
    while !connected && i < |attempts|
      invariant 0 <= i <= |attempts|
      invariant !connected ==> i <= FirstSetup(attempts, Ready)
      invariant connected ==> (
        && 0 < i && i - 1 == FirstSetup(attempts, Ready) && link != null
        && fresh(link) && link.open
        && link.State() == Command(attempts[i - 1], [Ready]).link)
      decreases |attempts| - i, if connected then 0 else 1
    {
      link, connected := Setup(attempts[i], Ready.outgoing, Ready.expected);
      i := i + 1;
    }
    if !connected {
      return null;
    }
    machine := new SewingMachineController(link);
  }
}
