/** `probe_one`: split an endpoint, resolve it, and probe all its addresses. */
module EndpointProbe {
  import opened Wrappers
  import opened HostPort
  import opened Selection
  import opened Probing
  import opened AddressProbe

  datatype LookupAnswer = LookupTimesOut | LookupFails | Found(addrs: seq<string>)

  /** What one probe task meets: a panic, or a lookup and each address's outcome, joined in some order. */
  datatype ProbeEvents = ProbeEvents(
    panic: Option<string>,
    lookup: LookupAnswer,
    address: nat -> AddrOutcome,
    joined: nat -> seq<nat>)

  datatype ProbeFailure =
    | Unsplittable(split: SplitError)
    | DnsTimedOut
    | DnsFailed
    | AllAddressesFailed(error: ProbeError)

  /** Every address task is joined once. */
  ghost predicate JoinsAll(e: ProbeEvents) {
    forall n: nat :: IsPermutation(e.joined(n), n)
  }

  function AddrOutcomes(e: ProbeEvents, n: nat): (os: seq<AddrOutcome>)
    ensures |os| == n && forall i :: 0 <= i < n ==> os[i] == e.address(i)
  {
    seq(n, i requires 0 <= i < n => e.address(i))
  }

  ghost function ProbeOne(endpoint: string, e: ProbeEvents): Result<(string, nat), ProbeFailure>
    requires JoinsAll(e)
  {
    match SplitHostPort(endpoint)
    case Err(x) => Err(Unsplittable(x))
    case Ok(_) =>
      match e.lookup
      case LookupTimesOut => Err(DnsTimedOut)
      case LookupFails => Err(DnsFailed)
      case Found(addrs) =>
        var n := |addrs|;
        PermutationInRange(e.joined(n), n);
        match AddrsVerdict(addrs, AddrOutcomes(e, n), e.joined(n))
        case Ok(best) => Ok(best)
        case Err(x) => Err(AllAddressesFailed(x))
  }

  /** One of the endpoint's addresses answered in this time, and the probe did not panic. */
  ghost predicate Answers(e: ProbeEvents, addr: string, latency: nat) {
    && e.panic.None? && e.lookup.Found?
    && exists j: nat :: j < |e.lookup.addrs| && e.lookup.addrs[j] == addr && e.address(j) == Answered(latency)
  }

  /** A valid endpoint's probe succeeds just when an address answers, with a fastest answer; its split cannot fail. */
  lemma ProbeOneIsFastest(endpoint: string, e: ProbeEvents)
    requires JoinsAll(e) && Accepted(endpoint) && e.panic.None?
    ensures ProbeOne(endpoint, e).Ok? <==> exists addr, latency :: Answers(e, addr, latency)
    ensures ProbeOne(endpoint, e).Ok? ==>
              var (addr, latency) := ProbeOne(endpoint, e).value;
              Answers(e, addr, latency) && forall a, l :: Answers(e, a, l) ==> latency <= l
    ensures ProbeOne(endpoint, e).Err? ==> !ProbeOne(endpoint, e).error.Unsplittable?
  {
    hide SplitHostPort, BestAlong, IsPermutation;
    SplitsAgain(endpoint);
    if e.lookup.Found? {
      var addrs := e.lookup.addrs;
      var os := AddrOutcomes(e, |addrs|);
      var w := BestIsMinimal(addrs, os, e.joined(|addrs|));
      forall a, l | Answers(e, a, l)
        ensures exists j: nat :: j < |addrs| && addrs[j] == a && os[j] == Answered(l)
      {
        var j: nat :| j < |addrs| && addrs[j] == a && e.address(j) == Answered(l);
        assert os[j] == Answered(l);
      }
      if ProbeOne(endpoint, e).Ok? {
        assert os[w] == e.address(w);
        assert Answers(e, addrs[w], os[w].latency);
      }
    }
  }

  /** Why a valid endpoint's probe failed. */
  lemma ProbeOneFails(endpoint: string, e: ProbeEvents)
    requires JoinsAll(e) && Accepted(endpoint)
    ensures ProbeOne(endpoint, e) == Err(DnsTimedOut) <==> e.lookup == LookupTimesOut
    ensures ProbeOne(endpoint, e) == Err(DnsFailed) <==> e.lookup == LookupFails
    ensures ProbeOne(endpoint, e) == Err(AllAddressesFailed(NoAddresses)) <==> e.lookup == Found([])
    ensures ProbeOne(endpoint, e) == Err(AllAddressesFailed(TaskFailed)) <==>
            e.lookup.Found? && e.lookup.addrs != []
            && forall j: nat :: j < |e.lookup.addrs| ==> e.address(j) == Crashed
    ensures forall addr, error :: ProbeOne(endpoint, e) == Err(AllAddressesFailed(AddressFailed(addr, error))) ==>
              e.lookup.Found?
              && exists j: nat :: j < |e.lookup.addrs| && e.lookup.addrs[j] == addr && e.address(j) == Refused(error)
                                  && forall i: nat :: i < j ==> !e.address(i).Refused?
  {
    hide SplitHostPort, BestAlong, IsPermutation;
    SplitsAgain(endpoint);
    if e.lookup.Found? {
      var addrs := e.lookup.addrs;
      var os := AddrOutcomes(e, |addrs|);
      var w := BestIsMinimal(addrs, os, e.joined(|addrs|));
      forall j: nat | j < |addrs| ensures os[j] == e.address(j) {}
      var f := FirstFailure(os, |addrs|);
      if f.Some? {
        assert os[f.value] == e.address(f.value);
        forall i: nat | i < f.value ensures !e.address(i).Refused? {
          assert os[i] == e.address(i);
        }
      }
      if forall j: nat :: j < |addrs| ==> e.address(j) == Crashed {
        assert forall j :: 0 <= j < |addrs| ==> os[j] == Crashed;
      }
    }
  }

  lemma SplitsAgain(endpoint: string)
    requires Accepted(endpoint)
    ensures SplitHostPort(endpoint).Ok?
  {
  }
}
