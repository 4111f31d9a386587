/** What a server's close codes do to the reconnect loop as a whole. */
module Rejections {
  import opened Wrappers
  import opened Durations
  import opened Errors
  import opened Config
  import opened Backoff
  import opened ReconnectLoop
  import opened ReconnectTiming

  /** How the loop sees a dial; `None` is one that outlasts the connect timeout. */
  function Seen(d: Option<DialEvents>): DialOutcome {
    match d
    case None => Elapsed
    case Some(events) =>
      match DialVerdict(events)
      case None => Connected
      case Some(e) => Refused(e)
  }

  function SeenAll(dials: seq<Option<DialEvents>>): (trace: seq<DialOutcome>)
    ensures |trace| == |dials| && forall i :: 0 <= i < |dials| ==> trace[i] == Seen(dials[i])
  {
    seq(|dials|, i requires 0 <= i < |dials| => Seen(dials[i]))
  }

  /** The script of raw dials in which these events happen: within the connect timeout, or past it. */
  ghost predicate Enacts(p: ReconnectPolicy, script: seq<RawDial>, dials: seq<Option<DialEvents>>) {
    && |script| == |dials|
    && forall i :: 0 <= i < |script| ==>
         if dials[i].None? then script[i].took > Total(p.connectTimeout)
         else script[i].took <= Total(p.connectTimeout) && script[i].error == DialVerdict(dials[i].value)
  }

  /** The loop sees the events of the script it is run on, so what is said of them here is said of `reconnect`. */
  lemma SeenIsObserved(p: ReconnectPolicy, script: seq<RawDial>, dials: seq<Option<DialEvents>>)
    requires Enacts(p, script, dials)
    ensures Observed(p, script) == SeenAll(dials)
  {
    hide DialVerdict, Observe, Total;
    forall i | 0 <= i < |script| ensures Observed(p, script)[i] == SeenAll(dials)[i] {
      assert Observed(p, script)[i] == Observe(p, script[i]);
    }
  }

  /** The server turned the token away, and this was noticed opening the stream or reading the reply. */
  predicate TurnedAway(d: Option<DialEvents>) {
    && d.Some? && CloseCode(d.value).Some? && !d.value.NotEstablished? && !d.value.WriteFailed?
    && CloseCode(d.value).value in {0x01, 0x02, 0x04}
  }

  /** The server acknowledged the handshake. */
  predicate Acknowledged(d: Option<DialEvents>) {
    d.Some? && d.value.Replied? && d.value.reply == "OK\n"
  }

  predicate BrokenTls(d: Option<DialEvents>) {
    d == Some(NotEstablished(TransportError))
  }

  /** The error with which such a dial ends the loop. */
  function Final(d: Option<DialEvents>): ConnectError
    requires TurnedAway(d) || BrokenTls(d)
  {
    if TurnedAway(d) then Handshake(CodeToError(CloseCode(d.value).value)) else Connection(TransportError)
  }

  lemma SeenDecisiveIff(d: Option<DialEvents>)
    ensures Seen(d).Connected? <==> Acknowledged(d)
    ensures Decisive(Seen(d)) <==> Acknowledged(d) || TurnedAway(d) || BrokenTls(d)
    ensures TurnedAway(d) || BrokenTls(d) ==> Seen(d) == Refused(Final(d))
  {
    if d.Some? {
      DialSucceedsIff(d.value);
    }
    if d.Some? && DialVerdict(d.value).Some? {
      if CloseCode(d.value).Some? {
        CloseIsTerminalIff(d.value);
      } else {
        OtherTerminalDials(d.value);
      }
    }
  }

  /** The loop gets as far as dial `k`: it is within the limit, and no earlier one succeeded or was final. */
  ghost predicate GetsTo(p: ReconnectPolicy, dials: seq<Option<DialEvents>>, k: nat) {
    && k < |dials| && WithinLimit(p, k)
    && forall j :: 0 <= j < k ==> !Acknowledged(dials[j]) && !TurnedAway(dials[j]) && !BrokenTls(dials[j])
  }

  lemma GetsToFirstDecisive(p: ReconnectPolicy, dials: seq<Option<DialEvents>>, k: nat)
    requires k < |dials| && Decisive(Seen(dials[k]))
    ensures GetsTo(p, dials, k) <==> k == FirstDecisive(SeenAll(dials)) && WithinLimit(p, k)
  {
    hide Acknowledged, TurnedAway, BrokenTls, Decisive, Seen;
    forall j | 0 <= j <= k
      ensures Decisive(Seen(dials[j])) <==> Acknowledged(dials[j]) || TurnedAway(dials[j]) || BrokenTls(dials[j])
    {
      SeenDecisiveIff(dials[j]);
    }
    var f := FirstDecisive(SeenAll(dials));
    assert f < |dials| ==> Decisive(Seen(dials[f]));
  }

  /** The loop publishes a connection exactly when it gets to a dial the server acknowledged. */
  lemma ConnectsIff(p: ReconnectPolicy, dials: seq<Option<DialEvents>>)
    ensures Consume(p, SeenAll(dials)) == Fresh <==> exists k: nat :: GetsTo(p, dials, k) && Acknowledged(dials[k])
  {
    hide Acknowledged, TurnedAway, BrokenTls, Final, Seen, Consume, IsTerminal;
    var trace := SeenAll(dials);
    LoopRefinesVerdict(p, trace);
    var f := FirstDecisive(trace);
    if f < |dials| {
      SeenDecisiveIff(dials[f]);
      GetsToFirstDecisive(p, dials, f);
    }
    forall k: nat | GetsTo(p, dials, k) && Acknowledged(dials[k]) ensures k == f {
      SeenDecisiveIff(dials[k]);
      GetsToFirstDecisive(p, dials, k);
    }
  }

  /** Dial `k` ends the loop for good, with this error. */
  ghost predicate EndsWith(p: ReconnectPolicy, dials: seq<Option<DialEvents>>, k: nat, e: ConnectError) {
    GetsTo(p, dials, k) && (TurnedAway(dials[k]) || BrokenTls(dials[k])) && e == Final(dials[k])
  }

  /**
   The loop returns a dial's error as final exactly when it gets to a dial that the server turned
   away or that broke on TLS; so codes 1, 2 and 4 end it at once, and 3 and unknown codes never do.
   */
  lemma FinalErrorIff(p: ReconnectPolicy, dials: seq<Option<DialEvents>>, e: ConnectError)
    ensures Consume(p, SeenAll(dials)) == GaveUp(SendError.Reconnect(e)) <==>
            exists k: nat :: EndsWith(p, dials, k, e)
  {
    hide Acknowledged, TurnedAway, BrokenTls, Final, Seen, Consume, IsTerminal;
    var trace := SeenAll(dials);
    LoopRefinesVerdict(p, trace);
    var f := FirstDecisive(trace);
    if f < |dials| {
      SeenDecisiveIff(dials[f]);
      GetsToFirstDecisive(p, dials, f);
      assert Consume(p, trace) == GaveUp(SendError.Reconnect(e)) ==> EndsWith(p, dials, f, e);
    }
    if k: nat :| EndsWith(p, dials, k, e) {
      SeenDecisiveIff(dials[k]);
      GetsToFirstDecisive(p, dials, k);
    }
  }

  lemma InBounds(p: ReconnectPolicy, dials: seq<Option<DialEvents>>, k: nat)
    requires GetsTo(p, dials, k)
    ensures k < |dials|
  {
  }

  /** The dial that is turned away is the last one made. */
  lemma TurnedAwayIsLast(p: ReconnectPolicy, dials: seq<Option<DialEvents>>, k: nat)
    requires GetsTo(p, dials, k) && TurnedAway(dials[k])
    ensures DialsMade(p, SeenAll(dials)) == k + 1
  {
    hide Acknowledged, TurnedAway, BrokenTls, Seen, Consume, GetsTo, DialsMade, IsTerminal, Backoff.Delay;
    var trace := SeenAll(dials);
    InBounds(p, dials, k);
    SeenDecisiveIff(dials[k]);
    GetsToFirstDecisive(p, dials, k);
    FirstDecisiveOfTake(trace, k);
    FirstDecisiveOfTake(trace, k + 1);
    LoopRefinesVerdict(p, trace[..k]);
    LoopRefinesVerdict(p, trace[..k + 1]);
    DecidedAt(p, trace, k);
  }

  /** Dials that time out, or that the server closes for any other reason, only ever exhaust the limit. */
  lemma OtherClosesOnlyExhaust(p: ReconnectPolicy, dials: seq<Option<DialEvents>>)
    requires forall i :: 0 <= i < |dials| && dials[i].Some? ==>
               CloseCode(dials[i].value).Some?
               && CloseCode(dials[i].value).value !in {0x01, 0x02, 0x04}
    ensures var s := Consume(p, SeenAll(dials));
            if p.maxAttempts.Some? && |dials| >= DialLimit(p)
            then s.GaveUp? && s.error.ReconnectExhausted? && s.error.attempts == DialLimit(p)
            else s.Running?
  {
    hide Consume, Backoff.Delay;
    var trace := SeenAll(dials);
    LoopRefinesVerdict(p, trace);
    forall i | 0 <= i < |dials| ensures !Decisive(trace[i]) {
      SeenDecisiveIff(dials[i]);
    }
  }
}
