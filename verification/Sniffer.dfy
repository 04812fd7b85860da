/** Protocol sniffing (core/app/dispatcher/sniffer.go and the sniffing loop of core/app/dispatcher/default.go). A
    protocol sniffer is an opaque verdict on a payload. */
module Sniffer {
  import opened Optional
  import opened SniffReader

  datatype Network = Tcp | Udp

  datatype SniffResult = SniffResult(protocol: string, domain: string, domainProtocol: string)

  /** What one protocol sniffer says; an accepting sniffer may still have no result. */
  datatype Verdict = Accept(result: Option<SniffResult>) | NoClue | NeedMoreData | Refuse

  datatype Candidate = Candidate(metadata: bool, network: Network, judge: Bytes -> Verdict)

  datatype Error = ErrNoClue | ErrUnknownContent | ErrTimeout | ErrRead | ErrDone

  datatype Finding = Finding(result: Option<SniffResult>, err: Option<Error>)

  // ---- One pass over the candidates ----

  /** Which candidates a pass asks: content sniffers of the network, or the metadata sniffers. */
  datatype Pass = Content(payload: Bytes, network: Network) | Metadata

  function PassPayload(p: Pass): Bytes {
    if p.Content? then p.payload else []
  }

  predicate Asked(p: Pass, c: Candidate) {
    match p
    case Content(_, network) => !c.metadata && c.network == network
    case Metadata => c.metadata
  }

  function VerdictOf(p: Pass, c: Candidate): Verdict {
    c.judge(PassPayload(p))
  }

  predicate Accepts(p: Pass, c: Candidate) {
    Asked(p, c) && VerdictOf(p, c).Accept? && VerdictOf(p, c).result.Some?
  }

  /** A content pass keeps whoever has no clue; the metadata pass also keeps all content sniffers. */
  predicate Keeps(p: Pass, c: Candidate) {
    if Asked(p, c) then VerdictOf(p, c).NoClue? else p.Metadata?
  }

  function Chosen(p: Pass, cs: seq<Candidate>): Option<SniffResult> {
    if cs == [] then None
    else
      var before := Chosen(p, cs[..|cs| - 1]);
      if before.Some? then before
      else if Accepts(p, cs[|cs| - 1]) then VerdictOf(p, cs[|cs| - 1]).result else None
  }

  function Pending(p: Pass, cs: seq<Candidate>): seq<Candidate> {
    if cs == [] then []
    else Pending(p, cs[..|cs| - 1]) + if Keeps(p, cs[|cs| - 1]) then [cs[|cs| - 1]] else []
  }

  function FindingOf(p: Pass, cs: seq<Candidate>): Finding {
    if Chosen(p, cs).Some? then Finding(Chosen(p, cs), None)
    else if Pending(p, cs) != [] then Finding(None, Some(ErrNoClue))
    else Finding(None, Some(ErrUnknownContent))
  }

  function Left(p: Pass, cs: seq<Candidate>): seq<Candidate> {
    if Chosen(p, cs).None? && Pending(p, cs) != [] then Pending(p, cs) else cs
  }

  class ProtocolSniffer {
    var candidates: seq<Candidate>

    constructor (candidates: seq<Candidate>)
      ensures this.candidates == candidates
    {
      this.candidates := candidates;
    }

    method Sniff(payload: Bytes, network: Network) returns (a: Finding)
      modifies this
      ensures a == FindingOf(Content(payload, network), old(candidates))
      ensures candidates == Left(Content(payload, network), old(candidates))
    {
      ghost var p := Content(payload, network);
      var pending := [];
      for i := 0 to |candidates|
        invariant candidates == old(candidates)
        invariant Chosen(p, candidates[..i]).None? && pending == Pending(p, candidates[..i])
      {
        assert candidates[..i + 1][..i] == candidates[..i];
        var c := candidates[i];
        if c.metadata || c.network != network {
          continue;
        }
        var verdict := c.judge(payload);
        if verdict.NoClue? {
          pending := pending + [c];
          continue;
        }
        if verdict.Accept? && verdict.result.Some? {
          ChosenStays(p, candidates, i + 1);
          return Finding(verdict.result, None);
        }
      }
      assert candidates[..|candidates|] == candidates;
      if |pending| > 0 {
        candidates := pending;
        return Finding(None, Some(ErrNoClue));
      }
      return Finding(None, Some(ErrUnknownContent));
    }

    method SniffMetadata() returns (a: Finding)
      modifies this
      ensures a == FindingOf(Metadata, old(candidates))
      ensures candidates == Left(Metadata, old(candidates))
    {
      var pending := [];
      for i := 0 to |candidates|
        invariant candidates == old(candidates)
        invariant Chosen(Metadata, candidates[..i]).None? && pending == Pending(Metadata, candidates[..i])
      {
        assert candidates[..i + 1][..i] == candidates[..i];
        var c := candidates[i];
        if !c.metadata {
          pending := pending + [c];
          continue;
        }
        var verdict := c.judge([]);
        if verdict.NoClue? {
          pending := pending + [c];
          continue;
        }
        if verdict.Accept? && verdict.result.Some? {
          assert VerdictOf(Metadata, c) == verdict && Accepts(Metadata, c);
          ChosenStays(Metadata, candidates, i + 1);
          return Finding(verdict.result, None);
        }
      }
      assert candidates[..|candidates|] == candidates;
      if |pending| > 0 {
        candidates := pending;
        return Finding(None, Some(ErrNoClue));
      }
      return Finding(None, Some(ErrUnknownContent));
    }
  }

  lemma {:induction false} ChosenStays(p: Pass, cs: seq<Candidate>, n: nat)
    requires n <= |cs| && Chosen(p, cs[..n]).Some?
    ensures Chosen(p, cs) == Chosen(p, cs[..n])
    decreases |cs|
  {
    if n < |cs| {
      assert cs[..|cs| - 1][..n] == cs[..n];
      ChosenStays(p, cs[..|cs| - 1], n);
    } else {
      assert cs[..n] == cs;
    }
  }

  // ---- What a pass does ----

  ghost predicate FirstAccepting(p: Pass, cs: seq<Candidate>, i: nat) {
    i < |cs| && Accepts(p, cs[i]) && forall j | 0 <= j < i :: !Accepts(p, cs[j])
  }

  lemma {:induction false} NoneAccepts(p: Pass, cs: seq<Candidate>)
    requires Chosen(p, cs).None?
    ensures forall j | 0 <= j < |cs| :: !Accepts(p, cs[j])
  {
    if cs != [] {
      NoneAccepts(p, cs[..|cs| - 1]);
      forall j | 0 <= j < |cs| ensures !Accepts(p, cs[j]) {
        if j < |cs| - 1 {
          assert cs[j] == cs[..|cs| - 1][j];
        }
      }
    }
  }

  lemma {:induction false} ChosenIsFirst(p: Pass, cs: seq<Candidate>) returns (i: nat)
    requires Chosen(p, cs).Some?
    ensures FirstAccepting(p, cs, i) && Chosen(p, cs) == VerdictOf(p, cs[i]).result
  {
    hide Accepts;
    var most := cs[..|cs| - 1];
    if Chosen(p, most).Some? {
      i := ChosenIsFirst(p, most);
    } else {
      i := |most|;
      NoneAccepts(p, most);
      forall j | 0 <= j < i ensures !Accepts(p, cs[j]) {
        assert cs[j] == most[j];
      }
    }
  }

  /** A pass returns a result exactly when a candidate it asks accepts, and then it is the first such candidate's. */
  lemma FirstAcceptingDecides(p: Pass, cs: seq<Candidate>)
    ensures Chosen(p, cs).Some? <==> exists i: nat :: FirstAccepting(p, cs, i)
    ensures forall i: nat | FirstAccepting(p, cs, i) :: Chosen(p, cs) == VerdictOf(p, cs[i]).result
  {
    hide Accepts; hide Chosen;
    if Chosen(p, cs).Some? {
      var k := ChosenIsFirst(p, cs);
      forall i: nat | FirstAccepting(p, cs, i) ensures i == k {
        if i < k {
        } else if i > k {
        }
      }
    } else {
      NoneAccepts(p, cs);
    }
  }

  /** Same order, possibly fewer. */
  ghost predicate Subsequence(a: seq<Candidate>, b: seq<Candidate>)
    decreases |b|
  {
    if b == [] then a == []
    else
      || Subsequence(a, b[..|b| - 1])
      || (a != [] && a[|a| - 1] == b[|b| - 1] && Subsequence(a[..|a| - 1], b[..|b| - 1]))
  }

  lemma {:induction false} SubsequenceOfSelf(cs: seq<Candidate>)
    ensures Subsequence(cs, cs)
  {
    if cs != [] {
      SubsequenceOfSelf(cs[..|cs| - 1]);
    }
  }

  lemma {:induction false} PendingIsSubsequence(p: Pass, cs: seq<Candidate>)
    ensures Subsequence(Pending(p, cs), cs)
  {
    hide Keeps;
    if cs != [] {
      var most := cs[..|cs| - 1];
      PendingIsSubsequence(p, most);
      if Keeps(p, cs[|cs| - 1]) {
        assert Pending(p, cs)[..|Pending(p, cs)| - 1] == Pending(p, most);
      } else {
        assert Pending(p, cs) == Pending(p, most);
      }
    }
  }

  lemma {:induction false} SubsequenceTransitive(a: seq<Candidate>, b: seq<Candidate>, c: seq<Candidate>)
    requires Subsequence(a, b) && Subsequence(b, c)
    ensures Subsequence(a, c)
    decreases |c|
  {
    if c != [] {
      var most := c[..|c| - 1];
      if Subsequence(b, most) {
        SubsequenceTransitive(a, b, most);
      } else if Subsequence(a, b[..|b| - 1]) {
        SubsequenceTransitive(a, b[..|b| - 1], most);
      } else {
        SubsequenceTransitive(a[..|a| - 1], b[..|b| - 1], most);
      }
    }
  }

  /** Every pass leaves a subsequence of the candidates. */
  lemma PassNarrows(p: Pass, cs: seq<Candidate>)
    ensures Subsequence(Left(p, cs), cs)
  {
    hide Chosen; hide Pending; hide Subsequence;
    PendingIsSubsequence(p, cs);
    SubsequenceOfSelf(cs);
  }

  lemma {:induction false} PendingHolds(p: Pass, cs: seq<Candidate>, c: Candidate)
    ensures c in Pending(p, cs) <==> c in cs && Keeps(p, c)
  {
    hide Keeps;
    if cs != [] {
      PendingHolds(p, cs[..|cs| - 1], c);
      assert cs == cs[..|cs| - 1] + [cs[|cs| - 1]];
    }
  }

  /** Who is left: everyone if the pass is decided, otherwise whoever has no clue and, after the metadata pass, every
      content sniffer. */
  lemma LeftExactly(p: Pass, cs: seq<Candidate>, c: Candidate)
    ensures FindingOf(p, cs).err != Some(ErrNoClue) ==> Left(p, cs) == cs
    ensures FindingOf(p, cs).err == Some(ErrNoClue) ==>
              (c in Left(p, cs) <==>
                 && c in cs
                 && match p
                    case Content(payload, network) =>
                      !c.metadata && c.network == network && c.judge(payload).NoClue?
                    case Metadata => !c.metadata || c.judge([]).NoClue?)
  {
    hide Chosen; hide Pending;
    PendingHolds(p, cs, c);
  }

  /** A candidate that asks for more data is not among those kept when a content pass has no clue: it is dropped like
      one that refuses, although the sniffing loop is prepared to wait for it. */
  lemma NeedMoreDataIsDropped(payload: Bytes, network: Network, cs: seq<Candidate>, c: Candidate)
    requires c in cs && c.judge(payload).NeedMoreData?
    requires FindingOf(Content(payload, network), cs).err == Some(ErrNoClue)
    ensures c !in Left(Content(payload, network), cs)
  {
    hide Chosen; hide Pending;
    PendingHolds(Content(payload, network), cs, c);
  }

  // ---- The sniffing loop ----

  /** Whether the context is done, and how long the read took, at each round. */
  datatype Clock = Clock(done: nat -> bool, elapsed: nat -> int)

  datatype Outcome = Outcome(finding: Finding, candidates: seq<Candidate>, stream: Stream, peeks: nat)

  const CAPACITY := 32767
  const DEADLINE := 200

  /** The loop from its i-th round on. */
  function ContentLoop(cs: seq<Candidate>, s: Stream, network: Network, clock: Clock, attempts: nat,
                       deadline: int): Outcome
    requires attempts < 2
    decreases 2 - attempts
  {
    if clock.done(attempts) then Outcome(Finding(None, Some(ErrDone)), cs, s, 0)
    else
      var s', d := CacheStep(s), deadline - clock.elapsed(attempts);
      if Take(s).read.failed then Outcome(Finding(None, Some(ErrRead)), cs, s', 1)
      else
        var p := Content(Payload(s', CAPACITY), network);
        var seen := p.payload != [];
        if seen && FindingOf(p, cs).err != Some(ErrNoClue) then Outcome(FindingOf(p, cs), Left(p, cs), s', 1)
        else
          var left := if seen then Left(p, cs) else cs;
          if attempts + 1 >= 2 || d <= 0 then Outcome(Finding(None, Some(ErrTimeout)), left, s', 1)
          else
            var rest := ContentLoop(left, s', network, clock, attempts + 1, d);
            rest.(peeks := rest.peeks + 1)
  }

  /** Domain and its protocol from the metadata, protocol from the content. */
  function CompositeResult(domain: SniffResult, protocol: SniffResult): SniffResult {
    SniffResult(protocol.protocol, domain.domain, domain.protocol)
  }

  function Combined(meta: Finding, content: Finding): Finding {
    if meta.err.None? && content.err.Some? then Finding(meta.result, None)
    else if meta.err.None? && meta.result.Some? && content.result.Some? then
      Finding(Some(CompositeResult(meta.result.value, content.result.value)), None)
    else content
  }

  function Sniffed(cs: seq<Candidate>, s: Stream, metadataOnly: bool, network: Network, clock: Clock): Outcome {
    var meta, left := FindingOf(Metadata, cs), Left(Metadata, cs);
    if metadataOnly then Outcome(meta, left, s, 0)
    else
      var o := ContentLoop(left, s, network, clock, 0, DEADLINE);
      o.(finding := Combined(meta, o.finding))
  }

  function After(peeks: nat, o: Outcome): Outcome {
    o.(peeks := o.peeks + peeks)
  }

  method SniffContent(sniffer: ProtocolSniffer, reader: CachedReader, network: Network, clock: Clock)
    returns (a: Finding, peeks: nat)
    requires reader !in reader.Frame() && sniffer !in reader.Frame()
    modifies sniffer, reader, reader.Frame()
    ensures Outcome(a, sniffer.candidates, reader.View(), peeks) ==
            ContentLoop(old(sniffer.candidates), old(reader.View()), network, clock, 0, DEADLINE)
  {
    hide FindingOf; hide Left; hide CacheStep; hide Take; hide CachedReader.View; hide Payload;
    ghost var whole := ContentLoop(sniffer.candidates, reader.View(), network, clock, 0, DEADLINE);
    var deadline, attempts := DEADLINE, 0;
    peeks := 0;
    while true
      invariant 0 <= attempts < 2 && peeks >= 0
      invariant whole == After(peeks,
                               ContentLoop(sniffer.candidates, reader.View(), network, clock, attempts, deadline))
      decreases 2 - attempts
    {
      if clock.done(attempts) {
        return Finding(None, Some(ErrDone)), peeks;
      }
      var round := attempts;
      var ok, payload := reader.Cache(CAPACITY);
      peeks := peeks + 1;
      if !ok {
        return Finding(None, Some(ErrRead)), peeks;
      }
      deadline := deadline - clock.elapsed(round);
      if |payload| > 0 {
        a := sniffer.Sniff(payload, network);
        if a.err == Some(ErrNoClue) {
          attempts := attempts + 1;
        } else {
          return a, peeks;
        }
      } else {
        attempts := attempts + 1;
      }
      if attempts >= 2 || deadline <= 0 {
        return Finding(None, Some(ErrTimeout)), peeks;
      }
    }
  }

  method SniffStream(sniffer: ProtocolSniffer, reader: CachedReader, metadataOnly: bool, network: Network, clock: Clock)
    returns (a: Finding, peeks: nat)
    requires reader !in reader.Frame() && sniffer !in reader.Frame()
    modifies sniffer, reader, reader.Frame()
    ensures Outcome(a, sniffer.candidates, reader.View(), peeks) ==
            Sniffed(old(sniffer.candidates), old(reader.View()), metadataOnly, network, clock)
  {
    hide FindingOf; hide Left; hide ContentLoop;
    var meta := sniffer.SniffMetadata();
    if metadataOnly {
      return meta, 0;
    }
    a, peeks := SniffContent(sniffer, reader, network, clock);
    if a.err.Some? && meta.err.None? {
      a := Finding(meta.result, None);
    } else if a.err.None? && meta.err.None? {
      NilErrorOfPass(Metadata, old(sniffer.candidates));
      NilErrorOfLoop(Left(Metadata, old(sniffer.candidates)), old(reader.View()), network, clock, 0, DEADLINE);
      a := Finding(Some(CompositeResult(meta.result.value, a.result.value)), None);
    }
  }

  lemma NilErrorOfPass(p: Pass, cs: seq<Candidate>)
    ensures FindingOf(p, cs).err.None? <==> FindingOf(p, cs).result.Some?
  {
  }

  lemma {:induction false} NilErrorOfLoop(cs: seq<Candidate>, s: Stream, network: Network, clock: Clock, attempts: nat,
                                          deadline: int)
    requires attempts < 2
    ensures var a := ContentLoop(cs, s, network, clock, attempts, deadline).finding;
            a.err.None? <==> a.result.Some?
    decreases 2 - attempts
  {
    hide FindingOf; hide Left; hide CacheStep; hide Take;
    var p := Content(Payload(CacheStep(s), CAPACITY), network);
    NilErrorOfPass(p, cs);
    if attempts == 0 {
      NilErrorOfLoop(cs, CacheStep(s), network, clock, 1, deadline - clock.elapsed(attempts));
      NilErrorOfLoop(Left(p, cs), CacheStep(s), network, clock, 1, deadline - clock.elapsed(attempts));
    }
  }

  /** Sniffing reports no error exactly when it has a result; callers use the result without checking it. */
  lemma NilErrorHasResult(cs: seq<Candidate>, s: Stream, metadataOnly: bool, network: Network, clock: Clock)
    ensures var a := Sniffed(cs, s, metadataOnly, network, clock).finding;
            a.err.None? <==> a.result.Some?
  {
    hide FindingOf; hide Left; hide ContentLoop;
    NilErrorOfPass(Metadata, cs);
    NilErrorOfLoop(Left(Metadata, cs), s, network, clock, 0, DEADLINE);
  }

  lemma {:induction false} LoopPeeks(cs: seq<Candidate>, s: Stream, network: Network, clock: Clock, attempts: nat,
                                     deadline: int)
    requires attempts < 2
    ensures var o := ContentLoop(cs, s, network, clock, attempts, deadline);
            o.peeks <= 2 - attempts && o.stream == CacheTimes(s, o.peeks)
    decreases 2 - attempts
  {
    hide FindingOf; hide Left; hide CacheStep; hide Take;
    var s' := CacheStep(s);
    assert CacheTimes(s, 0) == s && CacheTimes(s, 1) == s';
    if attempts == 0 {
      var d := deadline - clock.elapsed(0);
      LoopPeeks(cs, s', network, clock, 1, d);
      LoopPeeks(Left(Content(Payload(s', CAPACITY), network), cs), s', network, clock, 1, d);
      assert CacheTimes(s', 0) == s' && CacheTimes(s', 1) == CacheStep(s') == CacheTimes(s, 2);
    }
  }

  lemma {:induction false} LoopNarrows(cs: seq<Candidate>, s: Stream, network: Network, clock: Clock, attempts: nat,
                                       deadline: int)
    requires attempts < 2
    ensures Subsequence(ContentLoop(cs, s, network, clock, attempts, deadline).candidates, cs)
    decreases 2 - attempts
  {
    hide FindingOf; hide Left; hide CacheStep; hide Take; hide Subsequence;
    var s' := CacheStep(s);
    var p := Content(Payload(s', CAPACITY), network);
    SubsequenceOfSelf(cs);
    PassNarrows(p, cs);
    if attempts == 0 {
      var d := deadline - clock.elapsed(0);
      LoopNarrows(cs, s', network, clock, 1, d);
      LoopNarrows(Left(p, cs), s', network, clock, 1, d);
      SubsequenceTransitive(ContentLoop(Left(p, cs), s', network, clock, 1, d).candidates, Left(p, cs), cs);
    }
  }

  /** Sniffing is invisible to the stream: it does nothing but peek, at most twice, and only ever drops candidates. */
  lemma SniffingOnlyPeeks(cs: seq<Candidate>, s: Stream, metadataOnly: bool, network: Network, clock: Clock)
    ensures var o := Sniffed(cs, s, metadataOnly, network, clock);
            && o.peeks <= 2 && (metadataOnly ==> o.peeks == 0)
            && o.stream == CacheTimes(s, o.peeks) && Subsequence(o.candidates, cs)
  {
    hide FindingOf; hide Left; hide ContentLoop; hide Subsequence;
    var left := Left(Metadata, cs);
    PassNarrows(Metadata, cs);
    LoopPeeks(left, s, network, clock, 0, DEADLINE);
    LoopNarrows(left, s, network, clock, 0, DEADLINE);
    SubsequenceTransitive(ContentLoop(left, s, network, clock, 0, DEADLINE).candidates, left, cs);
    assert CacheTimes(s, 0) == s;
  }

  /** Which finding counts: content that is recognised gives the protocol, and metadata that is recognised gives the
      domain whether or not the content is; without recognised metadata the content's finding is returned as it is. */
  lemma ResultCombines(cs: seq<Candidate>, s: Stream, network: Network, clock: Clock)
    ensures var a := Sniffed(cs, s, false, network, clock).finding;
            var c := ContentLoop(Left(Metadata, cs), s, network, clock, 0, DEADLINE).finding;
            && (Chosen(Metadata, cs).None? ==> a == c)
            && (Chosen(Metadata, cs).Some? ==>
                  && a.err.None? && a.result.Some? && a.result.value.domain == Chosen(Metadata, cs).value.domain
                  && (c.err.None? <==> c.result.Some?)
                  && a.result.value.protocol ==
                     (if c.result.Some? then c.result.value else Chosen(Metadata, cs).value).protocol)
  {
    NilErrorOfLoop(Left(Metadata, cs), s, network, clock, 0, DEADLINE);
    hide ContentLoop; hide Left; hide Chosen; hide Pending;
  }

  /** A content result is some candidate's verdict on the front of the bytes the outbound will read next. */
  lemma {:induction false} LoopResultIsVerdict(cs: seq<Candidate>, s: Stream, network: Network, clock: Clock,
                                               attempts: nat, deadline: int)
    requires attempts < 2
    requires ContentLoop(cs, s, network, clock, attempts, deadline).finding.err.None?
    ensures var o := ContentLoop(cs, s, network, clock, attempts, deadline);
            exists c | c in cs :: Accepts(Content(Payload(o.stream, CAPACITY), network), c) &&
                                  o.finding.result == c.judge(Payload(o.stream, CAPACITY)).result
    decreases 2 - attempts
  {
    hide CacheStep; hide Take; hide Chosen; hide Pending;
    var s', d := CacheStep(s), deadline - clock.elapsed(attempts);
    var p := Content(Payload(s', CAPACITY), network);
    if p.payload != [] && FindingOf(p, cs).err != Some(ErrNoClue) {
      var i := ChosenIsFirst(p, cs);
      assert cs[i] in cs;
    } else {
      var left := if p.payload != [] then Left(p, cs) else cs;
      LoopResultIsVerdict(left, s', network, clock, attempts + 1, d);
      forall c | c in left ensures c in cs {
        PendingHolds(p, cs, c);
      }
    }
  }

  // ---- The loop, from the clock, the script and the verdicts alone ----

  /** A candidate recognises a payload: it is for content of this network and accepts with a result. */
  ghost predicate Recognises(c: Candidate, network: Network, payload: Bytes) {
    !c.metadata && c.network == network && c.judge(payload).Accept? && c.judge(payload).result.Some?
  }

  /** It cannot tell yet whether it will. */
  ghost predicate Unsure(c: Candidate, network: Network, payload: Bytes) {
    !c.metadata && c.network == network && c.judge(payload).NoClue?
  }

  /** After a peek that showed nothing everyone is left, after any other one whoever was unsure. */
  ghost predicate Remains(c: Candidate, network: Network, payload: Bytes) {
    payload == [] || Unsure(c, network, payload)
  }

  /** Among the candidates left by an earlier payload, the first that recognises this one. */
  ghost predicate FirstToRecognise(cs: seq<Candidate>, network: Network, earlier: Bytes, payload: Bytes, i: nat) {
    && i < |cs| && payload != [] && Remains(cs[i], network, earlier) && Recognises(cs[i], network, payload)
    && forall j | 0 <= j < i :: !(Remains(cs[j], network, earlier) && Recognises(cs[j], network, payload))
  }

  /** No candidate left recognises the payload and some are unsure, or there is nothing to see. */
  ghost predicate Undecided(cs: seq<Candidate>, network: Network, earlier: Bytes, payload: Bytes) {
    || payload == []
    || ((forall c | c in cs :: !(Remains(c, network, earlier) && Recognises(c, network, payload))) &&
        exists c | c in cs :: Remains(c, network, earlier) && Unsure(c, network, payload))
  }

  /** The reads of the script up to the n-th work. */
  ghost predicate ReadsWork(s: Stream, n: nat) {
    n <= |s.script| && forall i | 0 <= i < n :: !s.script[i].failed
  }

  ghost function Front(bytes: Bytes): Bytes {
    if |bytes| <= 32767 then bytes else bytes[..32767]
  }

  /** What the first and the second peek show: the front of the cache with the data of one or two reads behind it. */
  ghost function FirstShown(s: Stream): Bytes
    requires ReadsWork(s, 1)
  {
    Front(s.cache + s.script[0].data)
  }

  ghost function SecondShown(s: Stream): Bytes
    requires ReadsWork(s, 2)
  {
    Front(s.cache + s.script[0].data + s.script[1].data)
  }

  lemma AcceptsIsRecognises(c: Candidate, network: Network, payload: Bytes)
    ensures Accepts(Content(payload, network), c) <==> Recognises(c, network, payload)
    ensures Keeps(Content(payload, network), c) <==> Unsure(c, network, payload)
  {
  }

  /** The candidates left by an earlier payload. */
  ghost function KeptBy(cs: seq<Candidate>, network: Network, earlier: Bytes): seq<Candidate> {
    if earlier == [] then cs else Pending(Content(earlier, network), cs)
  }

  lemma KeptSnoc(most: seq<Candidate>, last: Candidate, network: Network, earlier: Bytes)
    ensures KeptBy(most + [last], network, earlier) ==
            KeptBy(most, network, earlier) + if Remains(last, network, earlier) then [last] else []
  {
    AcceptsIsRecognises(last, network, earlier);
    hide Keeps;
    assert (most + [last])[..|most|] == most;
  }

  /** What a pass over them chooses, in terms of all candidates. */
  lemma {:induction false} ChosenOfKept(cs: seq<Candidate>, network: Network, earlier: Bytes, payload: Bytes, i: nat)
    requires payload != []
    ensures var chosen := Chosen(Content(payload, network), KeptBy(cs, network, earlier));
            && (chosen.None? <==>
                  forall c | c in cs :: !(Remains(c, network, earlier) && Recognises(c, network, payload)))
            && (FirstToRecognise(cs, network, earlier, payload, i) ==> chosen == cs[i].judge(payload).result)
  {
    if cs != [] {
      var most, last := cs[..|cs| - 1], cs[|cs| - 1];
      var before := KeptBy(most, network, earlier);
      ChosenOfKept(most, network, earlier, payload, if i < |most| then i else 0);
      AcceptsIsRecognises(last, network, payload);
      KeptSnoc(most, last, network, earlier);
      hide Recognises; hide Remains; hide Accepts; hide KeptBy;
      assert cs == most + [last];
      assert (before + [last])[..|before|] == before && before + [] == before;
      if FirstToRecognise(cs, network, earlier, payload, i) && i == |most| {
        forall c | c in most ensures !(Remains(c, network, earlier) && Recognises(c, network, payload)) {
          var j :| 0 <= j < |most| && most[j] == c;
          assert cs[j] == c;
        }
      }
    }
  }

  lemma PendingOfKept(cs: seq<Candidate>, network: Network, earlier: Bytes, payload: Bytes)
    ensures Pending(Content(payload, network), KeptBy(cs, network, earlier)) != [] <==>
            exists c | c in cs :: Remains(c, network, earlier) && Unsure(c, network, payload)
  {
    hide Pending; hide Unsure; hide Keeps;
    var kept := KeptBy(cs, network, earlier);
    var pending := Pending(Content(payload, network), kept);
    if pending != [] {
      assert pending[0] in pending;
    }
    forall c
      ensures c in pending <==> c in cs && Remains(c, network, earlier) && Unsure(c, network, payload)
    {
      PendingHolds(Content(payload, network), kept, c);
      PendingHolds(Content(earlier, network), cs, c);
      AcceptsIsRecognises(c, network, payload);
      AcceptsIsRecognises(c, network, earlier);
    }
  }

  /** The finding of a pass over them: undecided, the first result, or nobody any more who could recognise it. */
  lemma FindingOfKept(cs: seq<Candidate>, network: Network, earlier: Bytes, payload: Bytes)
    requires payload != []
    ensures var a := FindingOf(Content(payload, network), KeptBy(cs, network, earlier));
            && (a.err == Some(ErrNoClue) <==> Undecided(cs, network, earlier, payload))
            && (forall i: nat | FirstToRecognise(cs, network, earlier, payload, i) ::
                  cs[i].judge(payload).Accept? && a == Finding(cs[i].judge(payload).result, None))
            && (a.err == Some(ErrUnknownContent) <==>
                  && (forall c | c in cs :: !(Remains(c, network, earlier) && Recognises(c, network, payload)))
                  && !Undecided(cs, network, earlier, payload))
  {
    hide Chosen; hide Pending; hide KeptBy; hide Remains; hide Recognises; hide Unsure;
    FirstOneAccepts(cs, network, earlier, payload);
    PendingOfKept(cs, network, earlier, payload);
    ChosenOfKept(cs, network, earlier, payload, 0);
    forall i: nat | FirstToRecognise(cs, network, earlier, payload, i)
      ensures Chosen(Content(payload, network), KeptBy(cs, network, earlier)) == cs[i].judge(payload).result
    {
      ChosenOfKept(cs, network, earlier, payload, i);
      assert cs[i] in cs;
    }
  }

  /** Whoever recognises has a result. */
  lemma FirstOneAccepts(cs: seq<Candidate>, network: Network, earlier: Bytes, payload: Bytes)
    ensures forall i: nat | FirstToRecognise(cs, network, earlier, payload, i) ::
              cs[i].judge(payload).Accept? && cs[i].judge(payload).result.Some?
  {
  }

  lemma LeftIsKept(cs: seq<Candidate>, network: Network, payload: Bytes)
    requires payload != [] && FindingOf(Content(payload, network), cs).err == Some(ErrNoClue)
    ensures Left(Content(payload, network), cs) == KeptBy(cs, network, payload)
  {
  }

  lemma ShownByPeeks(s: Stream)
    ensures Take(s).read.failed <==> !ReadsWork(s, 1)
    ensures ReadsWork(s, 1) ==> Payload(CacheStep(s), CAPACITY) == FirstShown(s)
    ensures ReadsWork(s, 1) ==> (Take(CacheStep(s)).read.failed <==> !ReadsWork(s, 2))
    ensures ReadsWork(s, 2) ==> Payload(CacheStep(CacheStep(s)), CAPACITY) == SecondShown(s)
  {
    if ReadsWork(s, 1) && |s.script| > 1 {
      assert s.script[1..][0] == s.script[1];
    }
  }

  /** One round that reaches its pass. */
  lemma RoundEnds(cs: seq<Candidate>, kept: seq<Candidate>, earlier: Bytes, s: Stream, network: Network, clock: Clock,
                  attempts: nat, deadline: int, payload: Bytes)
    requires attempts < 2 && kept == KeptBy(cs, network, earlier)
    requires !clock.done(attempts) && !Take(s).read.failed && payload == Payload(CacheStep(s), CAPACITY)
    ensures var o := ContentLoop(kept, s, network, clock, attempts, deadline);
            && (!Undecided(cs, network, earlier, payload) ==>
                  && o.peeks == 1 && o.finding.err != Some(ErrTimeout)
                  && (o.finding.err.None? || o.finding.err == Some(ErrUnknownContent))
                  && (o.finding.err.None? <==>
                        exists c | c in cs :: Remains(c, network, earlier) && Recognises(c, network, payload))
                  && forall i: nat | FirstToRecognise(cs, network, earlier, payload, i) ::
                       cs[i].judge(payload).Accept? && o.finding == Finding(cs[i].judge(payload).result, None))
            && (Undecided(cs, network, earlier, payload) &&
                (attempts == 1 || deadline - clock.elapsed(attempts) <= 0) ==>
                  o.peeks == 1 && o.finding == Finding(None, Some(ErrTimeout)))
  {
    hide CacheStep; hide Take; hide KeptBy; hide Chosen; hide Pending; hide Payload; hide Left; hide Recognises;
    hide Unsure; hide Remains;
    if payload != [] {
      FindingOfKept(cs, network, earlier, payload);
      NilErrorOfPass(Content(payload, network), kept);
    }
  }

  /** What a decided payload comes to: the result of the first candidate left that recognises it, or an error if there
      is none. */
  ghost predicate SettledBy(cs: seq<Candidate>, network: Network, earlier: Bytes, payload: Bytes, a: Finding) {
    && (forall i: nat | FirstToRecognise(cs, network, earlier, payload, i) ::
          cs[i].judge(payload).Accept? && a == Finding(cs[i].judge(payload).result, None))
    && ((forall c | c in cs :: !(Remains(c, network, earlier) && Recognises(c, network, payload))) ==>
          a.result == None && a.err == Some(ErrUnknownContent))
  }

  lemma RoundSettles(cs: seq<Candidate>, kept: seq<Candidate>, earlier: Bytes, s: Stream, network: Network,
                     clock: Clock, attempts: nat, deadline: int, payload: Bytes)
    requires attempts < 2 && kept == KeptBy(cs, network, earlier)
    requires !clock.done(attempts) && !Take(s).read.failed && payload == Payload(CacheStep(s), CAPACITY)
    requires !Undecided(cs, network, earlier, payload)
    ensures var o := ContentLoop(kept, s, network, clock, attempts, deadline);
            o.peeks == 1 && SettledBy(cs, network, earlier, payload, o.finding)
  {
    hide CacheStep; hide Take; hide KeptBy; hide ContentLoop; hide Payload; hide Recognises; hide Unsure; hide Remains;
    NilErrorOfLoop(kept, s, network, clock, attempts, deadline);
    RoundEnds(cs, kept, earlier, s, network, clock, attempts, deadline, payload);
  }

  /** How the loop starts: not at all if the context is done; with an error if the first read fails; and with what the
      first payload comes to, if that decides. */
  lemma FirstPeekDecides(cs: seq<Candidate>, s: Stream, network: Network, clock: Clock)
    ensures var o := ContentLoop(cs, s, network, clock, 0, DEADLINE);
            && (clock.done(0) ==> o.finding == Finding(None, Some(ErrDone)) && o.peeks == 0)
            && (!clock.done(0) && !ReadsWork(s, 1) ==> o.finding == Finding(None, Some(ErrRead)) && o.peeks == 1)
            && (!clock.done(0) && ReadsWork(s, 1) && !Undecided(cs, network, [], FirstShown(s)) ==>
                  o.peeks == 1 && SettledBy(cs, network, [], FirstShown(s), o.finding))
  {
    ShownByPeeks(s);
    hide CacheStep; hide Take; hide Payload; hide ReadsWork; hide FirstShown; hide SettledBy; hide Undecided;
    if !clock.done(0) && ReadsWork(s, 1) && !Undecided(cs, network, [], FirstShown(s)) {
      RoundSettles(cs, cs, [], s, network, clock, 0, DEADLINE, FirstShown(s));
    }
  }

  lemma LoopGoesOn(cs: seq<Candidate>, s: Stream, network: Network, clock: Clock)
    requires !clock.done(0) && ReadsWork(s, 1) && Undecided(cs, network, [], FirstShown(s))
    ensures var o := ContentLoop(cs, s, network, clock, 0, DEADLINE);
            if clock.elapsed(0) >= 200 then o.finding == Finding(None, Some(ErrTimeout)) && o.peeks == 1
            else
              var kept := KeptBy(cs, network, FirstShown(s));
              var rest := ContentLoop(kept, CacheStep(s), network, clock, 1, DEADLINE - clock.elapsed(0));
              o.finding == rest.finding && o.peeks == rest.peeks + 1
  {
    ShownByPeeks(s);
    hide CacheStep; hide Take; hide Payload; hide ReadsWork; hide FirstShown; hide Chosen; hide Pending;
    hide Undecided; hide Left; hide FindingOf;
    if FirstShown(s) != [] {
      FindingOfKept(cs, network, [], FirstShown(s));
      LeftIsKept(cs, network, FirstShown(s));
    }
  }

  /** How it goes on if the first payload does not decide and time is left: the second peek is made, unless the context
      is done by then, and shows the data of both reads; what that comes to is decided among those left. */
  lemma SecondPeekDecides(cs: seq<Candidate>, s: Stream, network: Network, clock: Clock)
    requires !clock.done(0) && ReadsWork(s, 1) && Undecided(cs, network, [], FirstShown(s)) && clock.elapsed(0) < 200
    ensures var o := ContentLoop(cs, s, network, clock, 0, DEADLINE);
            && (clock.done(1) ==> o.finding == Finding(None, Some(ErrDone)) && o.peeks == 1)
            && (!clock.done(1) && !ReadsWork(s, 2) ==> o.finding == Finding(None, Some(ErrRead)) && o.peeks == 2)
            && (!clock.done(1) && ReadsWork(s, 2) && !Undecided(cs, network, FirstShown(s), SecondShown(s)) ==>
                  o.peeks == 2 && SettledBy(cs, network, FirstShown(s), SecondShown(s), o.finding))
            && (!clock.done(1) && ReadsWork(s, 2) && Undecided(cs, network, FirstShown(s), SecondShown(s)) ==>
                  o.peeks == 2 && o.finding == Finding(None, Some(ErrTimeout)))
  {
    LoopGoesOn(cs, s, network, clock);
    ShownByPeeks(s);
    var kept, s' := KeptBy(cs, network, FirstShown(s)), CacheStep(s);
    var deadline := DEADLINE - clock.elapsed(0);
    LoopStarts(kept, s', network, clock, deadline);
    hide CacheStep; hide Take; hide Payload; hide ReadsWork; hide FirstShown; hide SecondShown; hide SettledBy;
    hide Undecided; hide ContentLoop; hide KeptBy;
    if !clock.done(1) && ReadsWork(s, 2) {
      if Undecided(cs, network, FirstShown(s), SecondShown(s)) {
        RoundEnds(cs, kept, FirstShown(s), s', network, clock, 1, deadline, SecondShown(s));
      } else {
        RoundSettles(cs, kept, FirstShown(s), s', network, clock, 1, deadline, SecondShown(s));
      }
    }
  }

  lemma LoopStarts(kept: seq<Candidate>, s: Stream, network: Network, clock: Clock, deadline: int)
    ensures var o := ContentLoop(kept, s, network, clock, 1, deadline);
            && (clock.done(1) ==> o.finding == Finding(None, Some(ErrDone)) && o.peeks == 0)
            && (!clock.done(1) && Take(s).read.failed ==> o.finding == Finding(None, Some(ErrRead)) && o.peeks == 1)
  {
    hide CacheStep; hide Take; hide FindingOf; hide Left;
  }

  /** The loop times out exactly if nothing ended or decided it and either the time was used up after the first peek or
      two peeks were made. */
  lemma TimesOutExactly(cs: seq<Candidate>, s: Stream, network: Network, clock: Clock)
    ensures ContentLoop(cs, s, network, clock, 0, DEADLINE).finding.err == Some(ErrTimeout) <==>
            && !clock.done(0) && ReadsWork(s, 1) && Undecided(cs, network, [], FirstShown(s))
            && (clock.elapsed(0) >= 200 ||
                (!clock.done(1) && ReadsWork(s, 2) && Undecided(cs, network, FirstShown(s), SecondShown(s))))
  {
    hide ContentLoop; hide ReadsWork; hide FirstShown; hide SecondShown; hide Undecided;
    FirstPeekDecides(cs, s, network, clock);
    if !clock.done(0) && ReadsWork(s, 1) {
      if !Undecided(cs, network, [], FirstShown(s)) {
        SettledInTime(cs, network, [], FirstShown(s), ContentLoop(cs, s, network, clock, 0, DEADLINE).finding);
      } else if clock.elapsed(0) < 200 {
        SecondPeekDecides(cs, s, network, clock);
        if !clock.done(1) && ReadsWork(s, 2) && !Undecided(cs, network, FirstShown(s), SecondShown(s)) {
          SettledInTime(cs, network, FirstShown(s), SecondShown(s),
                        ContentLoop(cs, s, network, clock, 0, DEADLINE).finding);
        }
      } else {
        LoopGoesOn(cs, s, network, clock);
      }
    }
  }

  lemma SettledInTime(cs: seq<Candidate>, network: Network, earlier: Bytes, payload: Bytes, a: Finding)
    requires !Undecided(cs, network, earlier, payload)
    ensures SettledBy(cs, network, earlier, payload, a) ==> a.err != Some(ErrTimeout)
  {
    hide Recognises; hide Remains; hide Unsure;
    if c :| c in cs && Remains(c, network, earlier) && Recognises(c, network, payload) {
      var n :| 0 <= n < |cs| && cs[n] == c;
      var i := FirstSuch(cs, network, earlier, payload, n);
    }
  }

  /** Some candidate that recognises the payload is the first. */
  lemma {:induction false} FirstSuch(cs: seq<Candidate>, network: Network, earlier: Bytes, payload: Bytes, n: nat)
    returns (i: nat)
    requires n < |cs| && payload != [] && Remains(cs[n], network, earlier) && Recognises(cs[n], network, payload)
    ensures FirstToRecognise(cs, network, earlier, payload, i)
    decreases n
  {
    hide Recognises; hide Remains;
    i := n;
    if k :| 0 <= k < n && Remains(cs[k], network, earlier) && Recognises(cs[k], network, payload) {
      i := FirstSuch(cs, network, earlier, payload, k);
    }
  }

  // ---- The metadata pass ----

  /** The metadata pass finds what the first metadata sniffer says that accepts without a payload, and keeps every
      content sniffer. */
  lemma MetadataExactly(cs: seq<Candidate>)
    ensures (FindingOf(Metadata, cs).result.Some? <==>
             exists c | c in cs :: c.metadata && c.judge([]).Accept? && c.judge([]).result.Some?)
    ensures forall i: nat | i < |cs| && cs[i].metadata && cs[i].judge([]).Accept? && cs[i].judge([]).result.Some? &&
                            (forall j | 0 <= j < i :: !(cs[j].metadata && cs[j].judge([]).Accept? &&
                                                        cs[j].judge([]).result.Some?)) ::
              FindingOf(Metadata, cs) == Finding(cs[i].judge([]).result, None)
    ensures forall c | c in cs && !c.metadata :: c in Left(Metadata, cs)
  {
    FirstAcceptingDecides(Metadata, cs);
    if FindingOf(Metadata, cs).result.Some? {
      var i: nat :| FirstAccepting(Metadata, cs, i);
      assert cs[i] in cs;
    } else {
      NoneAccepts(Metadata, cs);
    }
    hide Chosen; hide Pending;
    forall c | c in cs && !c.metadata ensures c in Left(Metadata, cs) {
      PendingHolds(Metadata, cs, c);
    }
  }
}
