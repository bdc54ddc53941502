/**
  The serial transport: a line-oriented request/response protocol over one link.

  The reader and writer tasks of the link are replaced by a script of what they will do:
  the code the writer task reports for each message handed to it, and, for each wait for
  a response, the line the reader task publishes or a timeout. Everything the caller can
  observe follows from that script, so the protocol is a deterministic function of it.
*/
module SerialComms {
  import opened Wrappers

  /** The writer task's classification of one write. */
  datatype CommsErrorCode = SUCCESS | TIMEOUT | FATAL

  /** One exchange: the lines to send, then the lines expected back, in order. */
  datatype Transmission = Transmission(outgoing: seq<string>, expected: seq<string>)

  /**
    A snapshot of a link:
    - outcomes: the code the writer task reports for each of the next messages; a message
      beyond the script is written successfully;
    - incoming: for each of the next waits for a response, the line the reader task
      publishes, or None when the wait times out; waits beyond the script time out;
    - sent: every message handed to the writer task so far, oldest first.
  */
  datatype LinkState = LinkState(outcomes: seq<CommsErrorCode>, incoming: seq<Option<string>>, sent: seq<string>)

  function OutcomeAt(outcomes: seq<CommsErrorCode>, i: nat): CommsErrorCode
  {
    if i < |outcomes| then outcomes[i] else SUCCESS
  }

  function Drop<T>(s: seq<T>, n: nat): seq<T>
  {
    if n <= |s| then s[n..] else []
  }

  datatype Written = Written(ok: bool, link: LinkState)

  /** The link after one message is handed to the writer task, whatever the writer reports. */
  function Sent(s: LinkState, msg: string): LinkState
  {
    s.(outcomes := Drop(s.outcomes, 1), sent := s.sent + [msg])
  }

  /** The write phase of a request: messages in order, stopping after the first one that fails. */
  function WriteAll(s: LinkState, requests: seq<string>): Written
    decreases |requests|
  {
    if requests == [] then Written(true, s)
    else
      var s1 := Sent(s, requests[0]);
      if OutcomeAt(s.outcomes, 0) != SUCCESS then Written(false, s1) else WriteAll(s1, requests[1..])
  }

  datatype Reply = Reply(ok: bool, lines: seq<string>, link: LinkState)

  /**
    The read phase of a request: n more responses after the lines already in acc, each
    with a wait of its own. A wait that times out ends the phase with no lines at all.
  */
  function CollectFrom(s: LinkState, n: nat, acc: seq<string>): (r: Reply)
    ensures r.ok ==> |r.lines| == |acc| + n
    ensures !r.ok ==> r.lines == []
    decreases n
  {
    if n == 0 then Reply(true, acc, s)
    else if s.incoming == [] then Reply(false, [], s)
    else match s.incoming[0]
      case None => Reply(false, [], s.(incoming := s.incoming[1..]))
      case Some(line) => CollectFrom(s.(incoming := s.incoming[1..]), n - 1, acc + [line])
  }

  /** HandleRequest: write every request, then collect the expected number of responses. */
  function Request(s: LinkState, requests: seq<string>, expected: int): Reply
  {
    var w := WriteAll(s, requests);
    if !w.ok then Reply(false, [], w.link)
    else CollectFrom(w.link, if expected < 0 then 0 else expected, [])
  }

  /** HandleCommand: run the transmissions in order, stopping at the first that fails. */
  function Command(s: LinkState, sequence: seq<Transmission>): Written
    decreases |sequence|
  {
    if sequence == [] then Written(true, s)
    else
      var t := sequence[0];
      var r := Request(s, t.outgoing, |t.expected|);
      if !r.ok || r.lines != t.expected then Written(false, r.link)
      else Command(r.link, sequence[1..])
  }

  // ------------------------------------------------------------------ the link object

  /** One serial link with its reader and writer tasks. */
  class Serial {
    var outcomes: seq<CommsErrorCode>
    var incoming: seq<Option<string>>
    var sent: seq<string>
    var open: bool

    function State(): LinkState
      reads this
    {
      LinkState(outcomes, incoming, sent)
    }

    /** A freshly opened link whose tasks behave as the script says. */
    constructor (script: LinkState)
      ensures State() == script && open
    {
      outcomes, incoming, sent := script.outcomes, script.incoming, script.sent;
      open := true;
    }

    /** Close: stop both tasks and release the port. */
    method Close()
      modifies this
      ensures !open && State() == old(State())
    {
      open := false;
    }

    /**
      Write the requests in order, giving up at the first write that does not succeed,
      then wait for `expected` responses one at a time, giving up at the first timeout.
    */
    method HandleRequest(requests: seq<string>, expected: int) returns (ok: bool, result: seq<string>)
      modifies this
      ensures Reply(ok, result, State()) == Request(old(State()), requests, expected)
      ensures open == old(open)
    {
      var i := 0;
      while i < |requests|
        invariant 0 <= i <= |requests|
        invariant WriteAll(State(), requests[i..]) == WriteAll(old(State()), requests)
        invariant open == old(open)
      {
        assert requests[i..][0] == requests[i] && requests[i..][1..] == requests[i + 1..];
        sent := sent + [requests[i]];
        var code := OutcomeAt(outcomes, 0);
        outcomes := Drop(outcomes, 1);
        match code {
          case SUCCESS =>
          case TIMEOUT =>
            return false, [];
          case FATAL =>
            return false, [];
        }
        i := i + 1;
      }
      ghost var afterWrites := State();
      assert WriteAll(old(State()), requests) == Written(true, afterWrites);
      var n: nat := if expected < 0 then 0 else expected;
      result := [];
      var k := 0;
      while k < expected
        invariant 0 <= k <= n
        invariant |result| == k
        invariant CollectFrom(State(), n - k, result) == CollectFrom(afterWrites, n, [])
        invariant open == old(open)
      {
        if incoming == [] {
          // nothing arrives before the timeout
          return false, [];
        }
        var next := incoming[0];
        incoming := incoming[1..];
        match next {
          case None =>
            return false, [];
          case Some(line) =>
            result := result + [line];
        }
        k := k + 1;
      }
      ok := true;
    }

    /**
      Run each transmission: send its lines, collect as many responses as it expects and
      compare them one by one with the expected lines. Stops at the first failure.
    */
    method HandleCommand(sequence: seq<Transmission>) returns (ok: bool)
      modifies this
      ensures Written(ok, State()) == Command(old(State()), sequence)
      ensures open == old(open)
    {
      var j := 0;
      while j < |sequence|
        invariant 0 <= j <= |sequence|
        invariant Command(State(), sequence[j..]) == Command(old(State()), sequence)
        invariant open == old(open)
      {
        var t := sequence[j];
        assert sequence[j..][0] == t && sequence[j..][1..] == sequence[j + 1..];
        var success, lines := HandleRequest(t.outgoing, |t.expected|);
        if !success {
          return false;
        }
        // the count check at this point of the exchange can never fail
        assert |lines| == |t.expected|;
        var i := 0;
        while i < |lines|
          invariant 0 <= i <= |lines|
          invariant lines[..i] == t.expected[..i]
        {
          if lines[i] != t.expected[i] {
            return false;
          }
          i := i + 1;
        }
        assert lines == t.expected[..|lines|] == t.expected;
        j := j + 1;
      }
      return true;
    }
  }

  /**
    SetupSerialCommunication once the port is open: one startup transmission on a link
    that follows the script. When it fails the link is closed and reported unusable; the
    closed link stands for the zero `Serial{}` that is returned then, which callers discard.
  */
  method Setup(script: LinkState, startOutgoing: seq<string>, startIncoming: seq<string>)
    returns (link: Serial, ok: bool)
    ensures fresh(link)
    ensures Written(ok, link.State()) == Command(script, [Transmission(startOutgoing, startIncoming)])
    ensures link.open == ok
  {
    link := new Serial(script);
    ok := link.HandleCommand([Transmission(startOutgoing, startIncoming)]);
    if !ok {
      link.Close();
    }
  }

  /** The first of successive set-up attempts on which the start-up transmission succeeds, or their number. */
  function FirstSetup(attempts: seq<LinkState>, start: Transmission): (k: nat)
    ensures k <= |attempts|
    ensures forall i :: 0 <= i < k ==> !Command(attempts[i], [start]).ok
    ensures k < |attempts| ==> Command(attempts[k], [start]).ok
  {
    if attempts == [] then 0
    else if Command(attempts[0], [start]).ok then 0
    else 1 + FirstSetup(attempts[1..], start)
  }

  // ------------------------------------------------------------------ the writer task

  /** How one write attempt of the writer task ends. */
  datatype WriteEvent = Completed | IOError | DeadlineExpired

  /** The bytes the writer task puts on the wire for a message. */
  function Encode(msg: string): string
  {
    msg + "\n\r"
  }

  /** Recovers a message from its bytes on the wire. */
  function Decode(bytes: string): Option<string>
  {
    if |bytes| >= 2 && bytes[|bytes| - 2..] == "\n\r" then Some(bytes[..|bytes| - 2]) else None
  }

  /** Every message can be read back from its bytes on the wire, so distinct messages have distinct bytes. */
  lemma DecodeEncode(msg: string)
    ensures Decode(Encode(msg)) == Some(msg)
    ensures forall other :: Encode(other) == Encode(msg) ==> other == msg
  {
    assert Encode(msg)[..|msg|] == msg;
    forall other | Encode(other) == Encode(msg) ensures other == msg
    {
      assert |other| == |msg|;
      assert Encode(other)[..|other|] == other;
    }
  }

  /**
    The code the writer task reports for a write: SUCCESS when the write completes and
    TIMEOUT when the 3-second deadline passes first. An I/O error ends the process
    instead (None), so FATAL is never reported.
  */
  function Report(e: WriteEvent): (r: Option<CommsErrorCode>)
    ensures r == Some(SUCCESS) <==> e == Completed
    ensures r == Some(TIMEOUT) <==> e == DeadlineExpired
    ensures r == None <==> e == IOError
    ensures r != Some(FATAL)
  {
    match e
    case Completed => Some(SUCCESS)
    case DeadlineExpired => Some(TIMEOUT)
    case IOError => None
  }

  // ------------------------------------------------------------------ properties

  /** The first of the next n writes that does not succeed, or n when they all do. */
  function FirstFailure(outcomes: seq<CommsErrorCode>, n: nat): (k: nat)
    ensures k <= n
    ensures forall i :: 0 <= i < k && i < |outcomes| ==> outcomes[i] == SUCCESS
    ensures k < n ==> k < |outcomes| && outcomes[k] != SUCCESS
  {
    if n == 0 then 0
    else if outcomes == [] then n
    else if outcomes[0] != SUCCESS then 0
    else 1 + FirstFailure(outcomes[1..], n - 1)
  }

  /** How many of n requests are handed to the writer: all of them, or up to the first failing one. */
  function WrittenCount(outcomes: seq<CommsErrorCode>, n: nat): (c: nat)
    ensures c <= n
  {
    var k := FirstFailure(outcomes, n);
    if k < n then k + 1 else n
  }

  lemma FirstFailureStep(outcomes: seq<CommsErrorCode>, n: nat)
    requires n > 0 && OutcomeAt(outcomes, 0) == SUCCESS
    ensures FirstFailure(outcomes, n) == 1 + FirstFailure(Drop(outcomes, 1), n - 1)
    ensures WrittenCount(outcomes, n) == 1 + WrittenCount(Drop(outcomes, 1), n - 1)
  {
  }

  /**
    Requests are handed to the writer in order; the first write that fails stops the
    phase, so exactly the requests up to and including it are written. Responses are
    not touched.
  */
  lemma {:induction false} WriteAllStopsAtFirstFailure(s: LinkState, requests: seq<string>)
    ensures WritesUpToFirstFailure(s, requests)
    decreases |requests|
  {
    if requests != [] {
      if OutcomeAt(s.outcomes, 0) == SUCCESS {
        WriteAllStopsAtFirstFailure(Sent(s, requests[0]), requests[1..]);
        WriteAllAfterSuccess(s, requests);
      } else {
        assert requests[..1] == [requests[0]];
      }
    }
  }

  /**
    The write phase hands exactly the requests up to and including the first failing
    write to the writer, succeeds iff none fails, and leaves the responses alone.
  */
  predicate WritesUpToFirstFailure(s: LinkState, requests: seq<string>)
  {
    var w := WriteAll(s, requests);
    var c := WrittenCount(s.outcomes, |requests|);
    && (w.ok <==> FirstFailure(s.outcomes, |requests|) == |requests|)
    && w.link.sent == s.sent + requests[..c]
    && w.link.outcomes == Drop(s.outcomes, c)
    && w.link.incoming == s.incoming
  }

  /** A successful first write: the property of the remaining requests carries over. */
  lemma WriteAllAfterSuccess(s: LinkState, requests: seq<string>)
    requires requests != [] && OutcomeAt(s.outcomes, 0) == SUCCESS
    requires WritesUpToFirstFailure(Sent(s, requests[0]), requests[1..])
    ensures WritesUpToFirstFailure(s, requests)
  {
    var s1 := Sent(s, requests[0]);
    var rest := requests[1..];
    WriteAllStep(s, requests);
    var w := WriteAll(s1, rest);
    var c1 := WrittenCount(s1.outcomes, |rest|);
    assert WriteAll(s, requests) == w;
    assert WrittenCount(s.outcomes, |requests|) == c1 + 1;
    PrefixStep(s.sent, requests, c1);
    assert w.link.sent == s.sent + requests[..c1 + 1];
    DropDrop(s.outcomes, 1, c1);
    assert w.link.outcomes == Drop(s.outcomes, c1 + 1);
  }

  /** One successful write followed by the rest of the phase. */
  lemma WriteAllStep(s: LinkState, requests: seq<string>)
    requires requests != [] && OutcomeAt(s.outcomes, 0) == SUCCESS
    ensures WriteAll(s, requests) == WriteAll(Sent(s, requests[0]), requests[1..])
    ensures FirstFailure(s.outcomes, |requests|) == 1 + FirstFailure(Drop(s.outcomes, 1), |requests| - 1)
    ensures WrittenCount(s.outcomes, |requests|) == 1 + WrittenCount(Drop(s.outcomes, 1), |requests| - 1)
  {
    FirstFailureStep(s.outcomes, |requests|);
  }

  lemma PrefixStep<T>(done: seq<T>, xs: seq<T>, c: nat)
    requires c < |xs|
    ensures done + xs[..c + 1] == (done + [xs[0]]) + xs[1..][..c]
  {
    assert xs[..c + 1] == [xs[0]] + xs[1..][..c];
  }

  lemma DropDrop<T>(s: seq<T>, a: nat, b: nat)
    ensures Drop(Drop(s, a), b) == Drop(s, a + b)
  {
  }

  /** The first of the next n waits that yields no line, or n when all of them do. */
  function FirstMissing(incoming: seq<Option<string>>, n: nat): (k: nat)
    ensures k <= n && k <= |incoming|
    ensures forall i :: 0 <= i < k ==> incoming[i].Some?
    ensures k < n ==> k == |incoming| || incoming[k].None?
  {
    if n == 0 || incoming == [] || incoming[0].None? then 0
    else 1 + FirstMissing(incoming[1..], n - 1)
  }

  /** The lines carried by a run of arrivals. */
  function Lines(arrivals: seq<Option<string>>): seq<string>
    requires forall i :: 0 <= i < |arrivals| ==> arrivals[i].Some?
  {
    if arrivals == [] then [] else [arrivals[0].value] + Lines(arrivals[1..])
  }

  /** The lines of a run of arrivals are the arrivals' contents, one for one. */
  lemma {:induction false} LinesOfArrivals(arrivals: seq<Option<string>>)
    requires forall i :: 0 <= i < |arrivals| ==> arrivals[i].Some?
    ensures |Lines(arrivals)| == |arrivals|
    ensures forall i :: 0 <= i < |arrivals| ==> arrivals[i] == Some(Lines(arrivals)[i])
    decreases |arrivals|
  {
    if arrivals != [] {
      LinesOfArrivals(arrivals[1..]);
    }
  }

  /**
    The read phase either takes exactly the next n lines in arrival order, or, at the
    first wait that times out, ends with no lines; it consumes waits in order up to and
    including the one that timed out.
  */
  lemma CollectAllOrNothing(s: LinkState, n: nat, acc: seq<string>)
    ensures var r := CollectFrom(s, n, acc);
      var k := FirstMissing(s.incoming, n);
      && (r.ok <==> k == n)
      && (r.ok ==> r.lines == acc + Lines(s.incoming[..n]) && r.link.incoming == s.incoming[n..])
      && (!r.ok ==> r.lines == [] && r.link.incoming == Drop(s.incoming, k + 1))
      && r.link.outcomes == s.outcomes && r.link.sent == s.sent
  {
    CollectLines(s, n, acc);
    CollectConsumes(s, n, acc);
  }

  lemma {:induction false} CollectLines(s: LinkState, n: nat, acc: seq<string>)
    ensures CollectFrom(s, n, acc).ok <==> FirstMissing(s.incoming, n) == n
    ensures CollectFrom(s, n, acc).ok ==> CollectFrom(s, n, acc).lines == acc + Lines(s.incoming[..n])
    decreases n
  {
    if n == 0 {
      assert s.incoming[..0] == [];
    } else if s.incoming != [] && s.incoming[0].Some? {
      var line := s.incoming[0].value;
      var s1 := s.(incoming := s.incoming[1..]);
      CollectLines(s1, n - 1, acc + [line]);
      CollectStep(s, n, acc);
      var r := CollectFrom(s, n, acc);
      if r.ok {
        LinesStep(s.incoming, n);
        var tail := Lines(s1.incoming[..n - 1]);
        assert r.lines == (acc + [line]) + tail;
        assert (acc + [line]) + tail == acc + ([line] + tail);
      }
    }
  }

  lemma {:induction false} CollectConsumes(s: LinkState, n: nat, acc: seq<string>)
    ensures var r := CollectFrom(s, n, acc);
      && (r.ok ==> n <= |s.incoming| && r.link.incoming == s.incoming[n..])
      && (!r.ok ==> r.link.incoming == Drop(s.incoming, FirstMissing(s.incoming, n) + 1))
      && r.link.outcomes == s.outcomes && r.link.sent == s.sent
    decreases n
  {
    if n > 0 && s.incoming != [] && s.incoming[0].Some? {
      var s1 := s.(incoming := s.incoming[1..]);
      CollectConsumes(s1, n - 1, acc + [s.incoming[0].value]);
      CollectStep(s, n, acc);
      LinesStepTail(s.incoming, n);
    }
  }

  lemma LinesStepTail<T>(incoming: seq<T>, n: nat)
    ensures 0 < n <= |incoming| ==> incoming[1..][n - 1..] == incoming[n..]
  {
  }

  /** One wait that yields a line, followed by the rest of the read phase. */
  lemma CollectStep(s: LinkState, n: nat, acc: seq<string>)
    requires n > 0 && s.incoming != [] && s.incoming[0].Some?
    ensures CollectFrom(s, n, acc)
      == CollectFrom(s.(incoming := s.incoming[1..]), n - 1, acc + [s.incoming[0].value])
    ensures FirstMissing(s.incoming, n) == 1 + FirstMissing(s.incoming[1..], n - 1)
    ensures Drop(s.incoming[1..], FirstMissing(s.incoming[1..], n - 1) + 1)
      == Drop(s.incoming, FirstMissing(s.incoming, n) + 1)
  {
  }

  lemma LinesStep(incoming: seq<Option<string>>, n: nat)
    requires 0 < n <= |incoming|
    requires forall i :: 0 <= i < n ==> incoming[i].Some?
    ensures Lines(incoming[..n]) == [incoming[0].value] + Lines(incoming[1..][..n - 1])
  {
    assert incoming[..n][1..] == incoming[1..][..n - 1];
  }

  /**
    A request succeeds exactly when every write succeeds and the next `expected` waits
    all yield a line; it then returns exactly those lines in arrival order. Otherwise
    it returns no lines at all, never a partial list.
  */
  lemma RequestAllOrNothing(s: LinkState, requests: seq<string>, expected: nat)
    ensures var r := Request(s, requests, expected);
      && (r.ok <==> FirstFailure(s.outcomes, |requests|) == |requests|
                    && FirstMissing(s.incoming, expected) == expected)
      && (r.ok ==> |r.lines| == expected && r.lines == Lines(s.incoming[..expected]))
      && (!r.ok ==> r.lines == [])
  {
    WriteAllStopsAtFirstFailure(s, requests);
    var w := WriteAll(s, requests);
    CollectAllOrNothing(w.link, expected, []);
  }

  /**
    A single transmission succeeds exactly when all its lines are written and the next
    responses to arrive are its expected lines, one for one.
  */
  lemma TransmissionSucceeds(s: LinkState, t: Transmission)
    ensures Command(s, [t]).ok <==>
      && FirstFailure(s.outcomes, |t.outgoing|) == |t.outgoing|
      && |t.expected| <= |s.incoming|
      && forall i :: 0 <= i < |t.expected| ==> s.incoming[i] == Some(t.expected[i])
  {
    RequestAllOrNothing(s, t.outgoing, |t.expected|);
    WriteAllStopsAtFirstFailure(s, t.outgoing);
    var r := Request(s, t.outgoing, |t.expected|);
    assert Command(s, [t]) == (if !r.ok || r.lines != t.expected then Written(false, r.link) else Written(true, r.link));
    var n := |t.expected|;
    if r.ok {
      LinesOfArrivals(s.incoming[..n]);
    }
    if FirstFailure(s.outcomes, |t.outgoing|) == |t.outgoing| {
      if n <= |s.incoming| && forall i :: 0 <= i < n ==> s.incoming[i] == Some(t.expected[i]) {
        assert forall i :: 0 <= i < n ==> s.incoming[i].Some?;
        LinesOfArrivals(s.incoming[..n]);
        assert r.lines == t.expected;
      }
    }
  }

  /**
    Running a list of transmissions is running its first part and, only if that
    succeeded, the rest: after a failure no later transmission writes or reads anything.
  */
  lemma {:induction false} CommandAppend(s: LinkState, first: seq<Transmission>, rest: seq<Transmission>)
    ensures var c := Command(s, first);
      Command(s, first + rest) == if c.ok then Command(c.link, rest) else c
    decreases |first|
  {
    if first == [] {
      assert first + rest == rest;
    } else {
      assert (first + rest)[0] == first[0];
      assert (first + rest)[1..] == first[1..] + rest;
      var t := first[0];
      var r := Request(s, t.outgoing, |t.expected|);
      if r.ok && r.lines == t.expected {
        CommandAppend(r.link, first[1..], rest);
      }
    }
  }

  /** `after` is `before` followed only by messages from `allowed`. */
  predicate Appended(before: seq<string>, after: seq<string>, allowed: set<string>)
  {
    && |before| <= |after| && after[..|before|] == before
    && forall k :: |before| <= k < |after| ==> after[k] in allowed
  }

  lemma AppendedTrans(a: seq<string>, b: seq<string>, c: seq<string>, allowed: set<string>)
    requires Appended(a, b, allowed) && Appended(b, c, allowed)
    ensures Appended(a, c, allowed)
  {
    assert c[..|b|][..|a|] == c[..|a|];
  }

  /** On a link where no line arrives, an exchange that expects a line fails and leaves nothing to read. */
  lemma SilentCommand(s: LinkState, t: Transmission)
    requires s.incoming == [] && t.expected != []
    ensures !Command(s, [t]).ok
    ensures Command(s, [t]).link.incoming == []
    ensures |Command(s, [t]).link.sent| <= |s.sent| + |t.outgoing|
  {
    WriteAllStopsAtFirstFailure(s, t.outgoing);
  }

  /** An empty transmission list, or a transmission with nothing to send or expect, succeeds and consumes nothing. */
  lemma EmptyTransmissions(s: LinkState)
    ensures Command(s, []) == Written(true, s)
    ensures Command(s, [Transmission([], [])]) == Written(true, s)
  {
  }
}
