/** The peeking reader of the dispatcher (core/app/dispatcher/default.go) over a plain or a counting reader
    (core/app/dispatcher/countreader.go). The stream below is a script of answers; a read may fail, and a failing read
    may still carry bytes. Deadlines only choose among answers, so timed and untimed reads are alike here. */
module SniffReader {

  newtype Byte = x: int | 0 <= x < 256
  type Bytes = seq<Byte>

  datatype Read = Read(data: Bytes, failed: bool)

  // ---- Steps on values ----

  /** The answers to come (every read fails when they run out), the bytes taken so far, the traffic counter and whether
      there is one, and the cache. */
  datatype Stream = Stream(script: seq<Read>, consumed: Bytes, counting: bool, counter: int, cache: Bytes)

  datatype Answer = Answer(stream: Stream, read: Read)

  function Next(script: seq<Read>): Read {
    if script == [] then Read([], true) else script[0]
  }

  function Rest(script: seq<Read>): seq<Read> {
    if script == [] then [] else script[1..]
  }

  /** The counting reader forgets what comes with an error. */
  function Passed(counting: bool, r: Read): Read {
    if counting && r.failed then Read([], true) else r
  }

  function Take(s: Stream): Answer {
    var r := Next(s.script);
    Answer(s.(script := Rest(s.script), consumed := s.consumed + r.data,
              counter := if s.counting && !r.failed then s.counter + |r.data| else s.counter),
           Passed(s.counting, r))
  }

  function CacheStep(s: Stream): Stream {
    var a := Take(s);
    if a.read.failed then a.stream else a.stream.(cache := s.cache + a.read.data)
  }

  function Payload(s: Stream, capacity: nat): Bytes {
    if |s.cache| <= capacity then s.cache else s.cache[..capacity]
  }

  function ReadStep(s: Stream): Answer {
    if s.cache != [] then Answer(s.(cache := []), Read(s.cache, false)) else Take(s)
  }

  /** Dropping the cache; a pipe directly below is interrupted as well. */
  function InterruptStep(s: Stream): Stream {
    s.(cache := [], script := if s.counting then s.script else [])
  }

  // ---- The readers ----

  class Source {
    var script: seq<Read>
    ghost var consumed: Bytes

    constructor (answers: seq<Read>)
      ensures script == answers && consumed == []
    {
      script, consumed := answers, [];
    }

    method ReadMultiBuffer() returns (r: Read)
      modifies this
      ensures r == Next(old(script)) && script == Rest(old(script)) && consumed == old(consumed) + r.data
    {
      if script == [] {
        r := Read([], true);
      } else {
        r, script := script[0], script[1..];
      }
      consumed := consumed + r.data;
    }

    /** An interrupted pipe drops what it holds and fails every later read. */
    method Interrupt()
      modifies this
      ensures script == [] && consumed == old(consumed)
    {
      script := [];
    }
  }

  class CounterReader {
    const reader: Source
    var counter: int

    constructor (reader: Source)
      ensures this.reader == reader && counter == 0
    {
      this.reader := reader;
      counter := 0;
    }

    method ReadMultiBuffer() returns (r: Read)
      modifies this, reader
      ensures var below := Next(old(reader.script));
              && r == Passed(true, below)
              && reader.script == Rest(old(reader.script)) && reader.consumed == old(reader.consumed) + below.data
              && counter == old(counter) + |r.data|
    {
      var below := reader.ReadMultiBuffer();
      if below.failed {
        return Read([], true);
      }
      if |below.data| > 0 {
        counter := counter + |below.data|;
      }
      return below;
    }
  }

  datatype Reader = Plain(source: Source) | Counting(wrapper: CounterReader)

  class CachedReader {
    const reader: Reader
    var cache: Bytes

    function Below(): Source {
      if reader.Plain? then reader.source else reader.wrapper.reader
    }

    function Frame(): set<object> {
      if reader.Plain? then {reader.source} else {reader.wrapper, reader.wrapper.reader}
    }

    ghost function View(): Stream
      reads this, Frame()
    {
      Stream(Below().script, Below().consumed, reader.Counting?,
             if reader.Counting? then reader.wrapper.counter else 0, cache)
    }

    constructor (reader: Reader)
      ensures this.reader == reader && cache == []
    {
      this.reader := reader;
      cache := [];
    }

    method ReadBelow() returns (r: Read)
      requires this !in Frame()
      modifies Frame()
      ensures View() == Take(old(View())).stream && r == Take(old(View())).read
    {
      match reader {
        case Plain(source) => r := source.ReadMultiBuffer();
        case Counting(wrapper) => r := wrapper.ReadMultiBuffer();
      }
    }

    /** Reads more into the cache and copies its front into a buffer of the given capacity. */
    method Cache(capacity: nat) returns (ok: bool, payload: Bytes)
      requires this !in Frame()
      modifies this, Frame()
      ensures View() == CacheStep(old(View()))
      ensures ok <==> !Take(old(View())).read.failed
      ensures ok ==> payload == Payload(View(), capacity)
    {
      payload := [];
      var r := ReadBelow();
      if r.failed {
        return false, payload;
      }
      if |r.data| > 0 {
        cache := cache + r.data;
      }
      assert cache == old(cache) + r.data;
      payload := cache[..if |cache| < capacity then |cache| else capacity];
      return true, payload;
    }

    method ReadMultiBuffer() returns (r: Read)
      requires this !in Frame()
      modifies this, Frame()
      ensures View() == ReadStep(old(View())).stream && r == ReadStep(old(View())).read
    {
      if |cache| > 0 {
        r := Read(cache, false);
        cache := [];
        return;
      }
      r := ReadBelow();
    }

    /** Drops the cache and passes the interrupt on to a pipe, but not to a counting reader. */
    method Interrupt()
      requires this !in Frame()
      modifies this, Frame()
      ensures View() == InterruptStep(old(View()))
    {
      if |cache| > 0 {
        cache := [];
      }
      if reader.Plain? {
        reader.source.Interrupt();
      }
      assert cache == [];
    }
  }

  // ---- Whole runs ----

  datatype Op = Peek | Fetch | Stop

  /** What has become of the bytes: handed to the outbound, thrown away by an interrupt, or lost with an error. */
  datatype Session = Session(stream: Stream, delivered: Bytes, released: nat, lost: nat)


  function Step(s: Session, op: Op): Session {
    match op
    case Peek =>
      s.(stream := CacheStep(s.stream),
         lost := s.lost + if Next(s.stream.script).failed then |Next(s.stream.script).data| else 0)
    case Fetch =>
      var a := ReadStep(s.stream);
      var gone := if s.stream.cache == [] then |Next(s.stream.script).data| - |a.read.data| else 0;
      s.(stream := a.stream, delivered := s.delivered + a.read.data, lost := s.lost + gone)
    case Stop => s.(stream := InterruptStep(s.stream), released := s.released + |s.stream.cache|)
  }

  function Run(s: Session, ops: seq<Op>): Session {
    if ops == [] then s else Step(Run(s, ops[..|ops| - 1]), ops[|ops| - 1])
  }

  function Fresh(script: seq<Read>, counting: bool): Session {
    Session(Stream(script, [], counting, 0, []), [], 0, 0)
  }

  /** Every byte taken is delivered, cached, released or lost; the counter counts all but the lost ones. */
  ghost predicate Accounted(s: Session) {
    && |s.delivered| + |s.stream.cache| + s.released + s.lost == |s.stream.consumed|
    && (s.stream.counting ==> s.stream.counter == |s.delivered| + |s.stream.cache| + s.released)
  }

  /** As long as nothing is lost or released, the outbound sees the stream in order. */
  ghost predicate InOrder(s: Session) {
    s.lost == 0 && s.released == 0 ==> s.delivered + s.stream.cache == s.stream.consumed
  }

  lemma StepKeepsAccounts(s: Session, op: Op)
    requires Accounted(s)
    ensures Accounted(Step(s, op))
  {
  }

  lemma StepKeepsOrder(s: Session, op: Op)
    requires InOrder(s) && Accounted(s)
    ensures InOrder(Step(s, op))
  {
    var t := Step(s, op);
    if t.lost == 0 && t.released == 0 {
      match op {
        case Peek =>
          if !Next(s.stream.script).failed {
            assert s.delivered + (s.stream.cache + Next(s.stream.script).data) ==
                   (s.delivered + s.stream.cache) + Next(s.stream.script).data;
          }
        case Fetch =>
        case Stop =>
      }
    }
  }

  lemma {:induction false} RunAccounted(script: seq<Read>, counting: bool, ops: seq<Op>)
    ensures Accounted(Run(Fresh(script, counting), ops)) && InOrder(Run(Fresh(script, counting), ops))
    ensures Run(Fresh(script, counting), ops).stream.counting == counting
  {
    hide Step;
    if ops != [] {
      var most, op := ops[..|ops| - 1], ops[|ops| - 1];
      RunAccounted(script, counting, most);
      StepKeepsAccounts(Run(Fresh(script, counting), most), op);
      StepKeepsOrder(Run(Fresh(script, counting), most), op);
      StepKeepsKind(Run(Fresh(script, counting), most), op);
    }
  }

  lemma StepKeepsKind(s: Session, op: Op)
    ensures Step(s, op).stream.counting == s.stream.counting
  {
  }

  /** On the path with a counting reader the counter equals what was delivered plus what is cached (plus what an
      interrupt threw away), so bytes replayed from the cache are counted once. */
  lemma CountedOnce(script: seq<Read>, ops: seq<Op>)
    ensures var s := Run(Fresh(script, true), ops);
            s.stream.counter == |s.delivered| + |s.stream.cache| + s.released
  {
    RunAccounted(script, true, ops);
  }

  // ---- Transparency ----

  ghost predicate Transparent(s: Session) {
    s.delivered + s.stream.cache == s.stream.consumed
  }

  /** No failing read carries bytes. */
  ghost predicate Clean(script: seq<Read>) {
    forall i | 0 <= i < |script| && script[i].failed :: script[i].data == []
  }

  ghost predicate Uninterrupted(ops: seq<Op>) {
    Stop !in ops
  }

  lemma StepKeepsClean(s: Session, op: Op)
    requires Clean(s.stream.script) && s.lost == 0 && s.released == 0 && op != Stop
    ensures Clean(Step(s, op).stream.script) && Step(s, op).lost == 0 && Step(s, op).released == 0
  {
  }

  lemma {:induction false} CleanRunsLoseNothing(script: seq<Read>, counting: bool, ops: seq<Op>)
    requires Clean(script) && Uninterrupted(ops)
    ensures var s := Run(Fresh(script, counting), ops);
            Clean(s.stream.script) && s.lost == 0 && s.released == 0
  {
    hide Step; hide Clean;
    if ops != [] {
      CleanRunsLoseNothing(script, counting, ops[..|ops| - 1]);
      StepKeepsClean(Run(Fresh(script, counting), ops[..|ops| - 1]), ops[|ops| - 1]);
    }
  }

  function Peeks(n: nat): seq<Op> {
    seq(n, i => Peek)
  }

  lemma PeeksSnoc(s: Session, n: nat)
    ensures Run(s, Peeks(n + 1)) == Step(Run(s, Peeks(n)), Peek)
  {
    assert Peeks(n + 1)[..n] == Peeks(n);
  }

  lemma {:induction false} PeeksAdvance(s: Session, n: nat)
    requires n <= |s.stream.script|
    ensures Run(s, Peeks(n)).stream.script == s.stream.script[n..]
  {
    hide Peeks;
    if n == 0 {
      NoPeeks(s);
    } else {
      PeeksAdvance(s, n - 1);
      PeeksSnoc(s, n - 1);
    }
  }

  lemma NoPeeks(s: Session)
    ensures Run(s, Peeks(0)) == s
  {
    assert Peeks(0) == [];
  }

  lemma UncleanLoses(script: seq<Read>, counting: bool, k: nat)
    requires k < |script| && script[k].failed && script[k].data != []
    ensures Run(Fresh(script, counting), Peeks(k + 1)).lost > 0
  {
    hide Peeks; hide Run;
    PeeksAdvance(Fresh(script, counting), k);
    PeeksSnoc(Fresh(script, counting), k);
  }

  lemma LossShows(script: seq<Read>, counting: bool, ops: seq<Op>)
    requires Run(Fresh(script, counting), ops).lost > 0
    ensures !Transparent(Run(Fresh(script, counting), ops))
  {
    hide Run;
    RunAccounted(script, counting, ops);
    var s := Run(Fresh(script, counting), ops);
    assert |s.delivered + s.stream.cache| < |s.stream.consumed|;
  }

  /** Peeking is invisible: over every interleaving of peeks and reads, what the outbound has got followed by the cache
      is exactly what was taken from the stream. This holds for every such run exactly when no failing read carries
      bytes. */
  lemma TransparentExactly(script: seq<Read>, counting: bool)
    ensures (forall ops | Uninterrupted(ops) :: Transparent(Run(Fresh(script, counting), ops))) <==> Clean(script)
  {
    if Clean(script) {
      forall ops | Uninterrupted(ops) ensures Transparent(Run(Fresh(script, counting), ops)) {
        hide Run;
        CleanRunsLoseNothing(script, counting, ops);
        RunAccounted(script, counting, ops);
      }
    } else {
      hide Run;
      var k :| 0 <= k < |script| && script[k].failed && script[k].data != [];
      UncleanLoses(script, counting, k);
      LossShows(script, counting, Peeks(k + 1));
      assert Uninterrupted(Peeks(k + 1));
    }
  }

  /** After an interrupt nothing cached is delivered any more: over a pipe every later read fails and takes nothing;
      over a counting reader the stream goes on with its next answer. */
  lemma InterruptedExactly(s: Session)
    ensures var t := Step(s, Stop).stream;
            && t.cache == [] && t.consumed == s.stream.consumed && t.counter == s.stream.counter
            && (s.stream.counting ==> t.script == s.stream.script)
            && (!s.stream.counting ==>
                  ReadStep(t).read == Read([], true) && ReadStep(t).stream == t && CacheStep(t) == t)
  {
  }

  // ---- What the sniffers see ----

  function CacheTimes(s: Stream, n: nat): Stream {
    if n == 0 then s else CacheStep(CacheTimes(s, n - 1))
  }

  lemma {:induction false} CacheGrows(s: Stream, n: nat)
    ensures s.cache <= CacheTimes(s, n).cache
  {
    if n > 0 {
      CacheGrows(s, n - 1);
    }
  }

  /** Whatever the sniffers were shown, after any number of further peeks, is the front of what the next read delivers,
      and that read takes nothing new from the stream. */
  lemma PayloadIsDeliveredNext(s: Stream, n: nat, capacity: nat)
    requires s.cache != []
    ensures var a := ReadStep(CacheTimes(s, n));
            && !a.read.failed && Payload(s, capacity) <= a.read.data && a.stream.cache == []
            && a.stream.consumed == CacheTimes(s, n).consumed && a.stream.counter == CacheTimes(s, n).counter
  {
    hide CacheTimes;
    CacheGrows(s, n);
  }
}
