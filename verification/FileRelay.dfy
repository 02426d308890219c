/**
 Relaying one file download: the server asks the hosting browser for one chunk at a time
 and streams the answers, over a transport that loses, repeats, delays and reorders.
 */
module FileRelay {
  import opened Wrappers
  import opened SessionReliability

  const CHUNK_BYTES: int := 64 * 1024

  type Bytes = seq<nat>

  // ---------- One outstanding chunk request ----------

  datatype Verdict = ACCEPTED | DUPLICATE | INVALID

  datatype Request = Request(
    position: int,
    size: int,
    id: nat,
    completedId: nat,
    completedPosition: int,
    completedSize: int,
    outstanding: bool)

  const NO_REQUEST := Request(0, 0, 0, 0, 0, 0, false)

  /** The next 64-bit request id; zero is skipped when the counter wraps. */
  function NextId(id: nat): nat
    requires id <= U64_MAX
  {
    if id == U64_MAX then 1 else id + 1
  }

  function Begin(r: Request, position: int, size: int): Request
    requires r.id <= U64_MAX
  {
    if r.outstanding then r
    else r.(position := position, size := size, id := NextId(r.id), outstanding := true)
  }

  function Judge(r: Request, id: nat, position: int, size: int, received: nat): Verdict {
    if size < 0 || size != received then INVALID
    else if id == r.completedId && position == r.completedPosition && size == r.completedSize then DUPLICATE
    else if !r.outstanding then INVALID
    else if id != r.id || position != r.position || size != r.size then INVALID
    else ACCEPTED
  }

  function Accept(r: Request, id: nat, position: int, size: int, received: nat): Request {
    if Judge(r, id, position, size, received) != ACCEPTED then r
    else r.(outstanding := false, completedId := id, completedPosition := position, completedSize := size)
  }

  class ChunkRequest {
    var position: int
    var size: int
    var requestId: nat
    var completedId: nat
    var completedPosition: int
    var completedSize: int
    var outstanding: bool

    ghost function State(): Request
      reads this
    {
      Request(position, size, requestId, completedId, completedPosition, completedSize, outstanding)
    }

    constructor ()
      ensures State() == NO_REQUEST
    {
      position, size, requestId, completedId := 0, 0, 0, 0;
      completedPosition, completedSize, outstanding := 0, 0, false;
    }

    /** A new request for these bytes under the next id, unless one is outstanding. */
    method BeginRequest(at: int, bytes: int) returns (id: nat)
      requires requestId <= U64_MAX
      modifies this
      ensures outstanding
      ensures old(outstanding) ==> State() == old(State())
      ensures !old(outstanding) ==>
                && position == at && size == bytes
                && requestId == (if old(requestId) == 0xFFFF_FFFF_FFFF_FFFF then 1 else old(requestId) + 1)
      ensures completedId == old(completedId) && completedPosition == old(completedPosition)
              && completedSize == old(completedSize)
      ensures State() == Begin(old(State()), at, bytes)
      ensures id == requestId <= U64_MAX
    {
      if outstanding {
        return requestId;
      }
      position, size := at, bytes;
      requestId := if requestId == U64_MAX then 0 else requestId + 1;
      if requestId == 0 {
        requestId := requestId + 1;
      }
      outstanding := true;
      return requestId;
    }

    /** A repeated completed answer is a duplicate, the outstanding one is accepted, others are invalid. */
    method AcceptResponse(id: nat, at: int, bytes: int, received: nat) returns (verdict: Verdict)
      modifies this
      ensures verdict == DUPLICATE <==>
                && bytes == received && id == old(completedId)
                && at == old(completedPosition) && bytes == old(completedSize)
      ensures verdict == ACCEPTED <==>
                && bytes == received && verdict != DUPLICATE
                && old(outstanding) && id == old(requestId) && at == old(position) && bytes == old(size)
      ensures verdict != ACCEPTED ==> State() == old(State())
      ensures verdict == ACCEPTED ==>
                && !outstanding && completedId == id && completedPosition == at && completedSize == bytes
                && requestId == old(requestId) && position == old(position) && size == old(size)
      ensures verdict == Judge(old(State()), id, at, bytes, received)
      ensures State() == Accept(old(State()), id, at, bytes, received)
    {
      if bytes < 0 || bytes != received {
        return INVALID;
      }
      if id == completedId && at == completedPosition && bytes == completedSize {
        return DUPLICATE;
      }
      if !outstanding {
        return INVALID;
      }
      if id != requestId || at != position || bytes != size {
        return INVALID;
      }
      outstanding := false;
      completedId, completedPosition, completedSize := id, at, bytes;
      return ACCEPTED;
    }

    method Cancel()
      modifies this
      ensures State() == old(State()).(outstanding := false)
    {
      outstanding := false;
    }
  }

  /** The least of what the reader takes, what a chunk may hold, and what remains. */
  ghost predicate IsLeast(size: int, count: int, remaining: int) {
    && size <= count && size <= 65_536 && size <= remaining
    && (size == count || size == 65_536 || size == remaining)
  }

  // ---------- One download ----------

  datatype Download = Download(valid: bool, progress: int, chunk: Option<Bytes>, request: Request)

  const NEW_DOWNLOAD := Download(true, 0, None, NO_REQUEST)

  /** What a read yields: bytes, the end, a wait for the chunk just requested, or a failure. */
  datatype ReadResult = Data(bytes: Bytes) | EndOfFile | Wait | Failure

  function RequestSize(count: int, remaining: int): int {
    var bounded := if count < CHUNK_BYTES then count else CHUNK_BYTES;
    if bounded < remaining then bounded else remaining
  }

  /** Issues or reissues the request for the next bytes, or gives up if the host is gone. */
  function RequestChunk(d: Download, size: int, hostAlive: bool): Download
    requires d.request.id <= U64_MAX
  {
    if !d.valid then d
    else if hostAlive then d.(request := Begin(d.request, d.progress, size))
    else d.(valid := false, request := Begin(d.request, d.progress, size).(outstanding := false))
  }

  function ReadChunk(d: Download, fileSize: int, count: int, hostAlive: bool): (Download, ReadResult)
    requires d.request.id <= U64_MAX
  {
    if !d.valid then (d, Failure)
    else if d.progress >= fileSize then (d, EndOfFile)
    else if d.chunk.Some? then
      if |d.chunk.value| > count then (d, Failure)
      else (d.(progress := d.progress + |d.chunk.value|, chunk := None), Data(d.chunk.value))
    else (RequestChunk(d, RequestSize(count, fileSize - d.progress), hostAlive), Wait)
  }

  /** The verdict on a response; the last branch is for a second chunk while one is unread. */
  function ProvideVerdict(d: Download, id: nat, position: int, size: int, data: Bytes): Verdict {
    var verdict := Judge(d.request, id, position, size, |data|);
    if verdict == ACCEPTED && d.chunk.Some? then INVALID else verdict
  }

  function Provide(d: Download, id: nat, position: int, size: int, data: Bytes): Download {
    var next := d.(request := Accept(d.request, id, position, size, |data|));
    if ProvideVerdict(d, id, position, size, data) == ACCEPTED then next.(chunk := Some(data)) else next
  }

  function Reissue(d: Download, hostAlive: bool): Download
    requires d.request.id <= U64_MAX
  {
    if !d.valid || !d.request.outstanding then d else RequestChunk(d, d.request.size, hostAlive)
  }

  function Invalidate(d: Download): Download {
    d.(valid := false, request := d.request.(outstanding := false))
  }

  class Subscriber {
    const fileSize: int
    const request: ChunkRequest
    var valid: bool
    var progress: int
    var chunk: Option<Bytes>

    ghost function State(): Download
      reads this, request
    {
      Download(valid, progress, chunk, request.State())
    }

    constructor (fileSize: int)
      ensures State() == NEW_DOWNLOAD && this.fileSize == fileSize && fresh(request)
    {
      this.fileSize := fileSize;
      request := new ChunkRequest();
      valid, progress, chunk := true, 0, None;
    }

    method SendRequest(size: int, hostAlive: bool) returns (id: Option<nat>)
      requires request.requestId <= U64_MAX
      modifies this, request
      ensures State() == RequestChunk(old(State()), size, hostAlive)
      ensures id.Some? <==> old(valid) && hostAlive
      ensures id.Some? ==> id.value == request.requestId
    {
      id := None;
      if valid {
        var issued := request.BeginRequest(progress, size);
        if hostAlive {
          id := Some(issued);
        } else {
          valid := false;
          request.Cancel();
        }
      }
    }

    /** The reader gets what has arrived, or the end, or asks the host for the next bytes. */
    method Read(count: int, hostAlive: bool) returns (result: ReadResult)
      requires request.requestId <= U64_MAX
      modifies this, request
      ensures result.Failure? <==>
                !old(valid) || (old(progress) < fileSize && old(chunk).Some? && |old(chunk).value| > count)
      ensures result.EndOfFile? <==> old(valid) && old(progress) >= fileSize
      ensures result.Failure? || result.EndOfFile? ==> State() == old(State())
      ensures result.Data? ==>
                && old(chunk) == Some(result.bytes) && chunk.None? && progress == old(progress) + |result.bytes|
                && valid && request.State() == old(request.State())
      ensures result.Wait? <==> old(valid) && old(progress) < fileSize && old(chunk).None?
      ensures result.Wait? ==>
                && chunk.None? && progress == old(progress) && valid == hostAlive && request.outstanding == hostAlive
      ensures result.Wait? && hostAlive && old(request.outstanding) ==> request.State() == old(request.State())
      ensures result.Wait? && hostAlive && !old(request.outstanding) ==>
                request.position == progress && IsLeast(request.size, count, fileSize - progress)
      ensures (State(), result) == ReadChunk(old(State()), fileSize, count, hostAlive)
    {
      if !valid {
        return Failure;
      }
      if progress < fileSize {
        if chunk.Some? {
          var bytes := chunk.value;
          if |bytes| > count {
            return Failure;
          }
          progress := progress + |bytes|;
          chunk := None;
          return Data(bytes);
        }
        var remaining := fileSize - progress;
        var bounded := if count < CHUNK_BYTES then count else CHUNK_BYTES;
        var size := if bounded < remaining then bounded else remaining;
        var id := SendRequest(size, hostAlive);
        return Wait;
      }
      return EndOfFile;
    }

    method ProvideFileChunk(id: nat, position: int, size: int, data: Bytes) returns (verdict: Verdict)
      modifies this, request
      ensures chunk == if verdict == ACCEPTED then Some(data) else old(chunk)
      ensures valid == old(valid) && progress == old(progress)
      ensures verdict == ProvideVerdict(old(State()), id, position, size, data)
      ensures State() == Provide(old(State()), id, position, size, data)
    {
      verdict := request.AcceptResponse(id, position, size, |data|);
      if verdict != ACCEPTED {
        return;
      }
      if chunk.Some? {
        return INVALID;
      }
      chunk := Some(data);
    }

    method ReissueOutstanding(hostAlive: bool)
      requires request.requestId <= U64_MAX
      modifies this, request
      ensures State() == Reissue(old(State()), hostAlive)
    {
      if !valid || !request.outstanding {
        return;
      }
      var id := SendRequest(request.size, hostAlive);
    }

    method Withdraw()
      modifies this, request
      ensures State() == Invalidate(old(State()))
    {
      valid := false;
      request.Cancel();
    }
  }

  // ---------- Every run of a download ----------

  datatype Ask = Ask(id: nat, position: int, size: int)

  datatype Answer = Answer(id: nat, position: int, size: int, data: Bytes)

  /** Asks and answers stay in the network, so each may arrive late, repeatedly, or never. */
  datatype Relay = Relay(file: Bytes, count: int, download: Download, asks: set<Ask>, answers: set<Answer>, output: Bytes)

  datatype Step =
    | Read(hostAlive: bool)
    | HostAnswers(ask: Ask)
    | AnswerArrives(answer: Answer)
    | HostReconnects(hostAlive: bool)
    | Withdraw

  /** The slice a hosting browser reads from its file for a request. */
  function Slice(file: Bytes, position: int, size: int): Bytes {
    var end := if position + size > |file| then |file| else position + size;
    if 0 <= position <= end then file[position..end] else []
  }

  predicate Enabled(r: Relay, step: Step) {
    && r.download.request.id <= U64_MAX
    && match step
       case Read(_) => true
       case HostAnswers(ask) => ask in r.asks
       case AnswerArrives(answer) => answer in r.answers
       case HostReconnects(_) => true
       case Withdraw => true
  }

  /** The request a step has put on the wire, if any. */
  function Asked(after: Download): set<Ask> {
    if after.request.outstanding
    then {Ask(after.request.id, after.request.position, after.request.size)}
    else {}
  }

  function Apply(r: Relay, step: Step): Relay
    requires Enabled(r, step)
  {
    match step
    case Read(hostAlive) =>
      var (next, result) := ReadChunk(r.download, |r.file|, r.count, hostAlive);
      r.(download := next,
         asks := r.asks + Asked(next),
         output := if result.Data? then r.output + result.bytes else r.output)
    case HostAnswers(ask) =>
      var data := Slice(r.file, ask.position, ask.size);
      r.(answers := r.answers + {Answer(ask.id, ask.position, |data|, data)})
    case AnswerArrives(answer) =>
      r.(download := Provide(r.download, answer.id, answer.position, answer.size, answer.data))
    case HostReconnects(hostAlive) =>
      var next := Reissue(r.download, hostAlive);
      r.(download := next, asks := r.asks + Asked(next))
    case Withdraw => r.(download := Invalidate(r.download))
  }

  predicate Runs(r: Relay, steps: seq<Step>)
    decreases |steps|
  {
    steps == [] || (Enabled(r, steps[0]) && Runs(Apply(r, steps[0]), steps[1..]))
  }

  function Run(r: Relay, steps: seq<Step>): Relay
    requires Runs(r, steps)
    decreases |steps|
  {
    if steps == [] then r else Run(Apply(r, steps[0]), steps[1..])
  }

  function Start(file: Bytes, count: int): Relay {
    Relay(file, count, NEW_DOWNLOAD, {}, {}, [])
  }

  /** The bytes a download has taken from accepted answers. */
  function Taken(d: Download): int {
    d.progress + (if d.chunk.Some? then |d.chunk.value| else 0)
  }

  ghost predicate DownloadInv(file: Bytes, count: int, d: Download) {
    var request := d.request;
    && 0 <= d.progress <= Taken(d) <= |file|
    && request.id <= U64_MAX
    && (d.chunk.Some? ==> 0 < |d.chunk.value| <= count && !request.outstanding
                          && d.chunk.value == file[d.progress..Taken(d)])
    && (request.outstanding ==> d.chunk.None? && request.position == d.progress
                                && 0 < request.size == RequestSize(count, |file| - d.progress))
    && (request.completedSize > 0 ==> request.completedPosition + request.completedSize == Taken(d))
    && (request.completedSize == 0 ==> Taken(d) == 0)
    && request.completedSize >= 0
  }

  ghost predicate Honest(file: Bytes, answer: Answer) {
    && answer.size == |answer.data|
    && (answer.data != [] ==> answer.data == Slice(file, answer.position, answer.size))
  }

  ghost predicate Inv(r: Relay) {
    && r.count > 0
    && DownloadInv(r.file, r.count, r.download)
    && r.output == r.file[..r.download.progress]
    && (forall a :: a in r.answers ==> Honest(r.file, a))
  }

  /** The check of a chunk against the file before it reaches the download. */
  predicate ValidChunk(position: int, declared: int, received: nat, total: int) {
    && position >= 0 && declared >= 0 && total >= 0
    && received <= CHUNK_BYTES
    && declared == received
    && position <= total && declared <= total - position
  }

  /** The request now outstanding is never mistaken for the completed one, whatever its id. */
  lemma CurrentIsNoDuplicate(file: Bytes, count: int, d: Download)
    requires count > 0 && DownloadInv(file, count, d) && d.request.outstanding
    ensures Judge(d.request, d.request.id, d.request.position, d.request.size, d.request.size) == ACCEPTED
    ensures d.chunk == None
    ensures ValidChunk(d.request.position, d.request.size,
                       |Slice(file, d.request.position, d.request.size)|, |file|)
  {
  }

  lemma ProvideKeeps(file: Bytes, count: int, d: Download, answer: Answer)
    requires count > 0 && DownloadInv(file, count, d) && Honest(file, answer)
    ensures DownloadInv(file, count, Provide(d, answer.id, answer.position, answer.size, answer.data))
    ensures Judge(d.request, answer.id, answer.position, answer.size, |answer.data|) == ACCEPTED ==> d.chunk == None
  {
  }

  lemma StepKeepsInv(r: Relay, step: Step)
    requires Inv(r) && Enabled(r, step)
    ensures Inv(Apply(r, step)) && Apply(r, step).file == r.file && Apply(r, step).count == r.count
  {
    match step {
      case Read(hostAlive) =>
        var (next, result) := ReadChunk(r.download, |r.file|, r.count, hostAlive);
        if result.Data? {
          assert r.file[..next.progress] == r.file[..r.download.progress] + result.bytes;
        }
      case HostAnswers(ask) =>
      case AnswerArrives(answer) => ProvideKeeps(r.file, r.count, r.download, answer);
      case HostReconnects(hostAlive) =>
      case Withdraw =>
    }
  }

  lemma {:induction false} RunKeepsInv(r: Relay, steps: seq<Step>)
    requires Inv(r) && Runs(r, steps)
    ensures Inv(Run(r, steps)) && Run(r, steps).file == r.file && Run(r, steps).count == r.count
    decreases |steps|
  {
    if steps != [] {
      StepKeepsInv(r, steps[0]);
      RunKeepsInv(Apply(r, steps[0]), steps[1..]);
    }
  }

  /**
   In every run, whatever is lost, repeated, late, reordered, reissued or withdrawn: the
   bytes read so far are the first `progress` bytes of the file; a chunk waiting to be
   read fits the reader's buffer; an answer is accepted only when no chunk is waiting; and
   the answer to the outstanding request, when it arrives, passes the bounds check and is
   accepted, never taken for a duplicate, even after the request ids have wrapped around.
   */
  lemma DownloadIsFaithful(file: Bytes, count: int, steps: seq<Step>)
    requires count > 0 && Runs(Start(file, count), steps)
    ensures var r := Run(Start(file, count), steps);
      var d, request := r.download, r.download.request;
      && 0 <= d.progress <= |file| && r.output == file[..d.progress]
      && (d.chunk.Some? ==> |d.chunk.value| <= count)
      && (forall a :: a in r.answers && Judge(request, a.id, a.position, a.size, |a.data|) == ACCEPTED ==> d.chunk == None)
      && (request.outstanding ==>
            && 0 < request.size <= 65_536 && 0 <= request.position && request.position + request.size <= |file|
            && ValidChunk(request.position, request.size, |Slice(file, request.position, request.size)|, |file|)
            && Judge(request, request.id, request.position, request.size, request.size) == ACCEPTED)
  {
    RunKeepsInv(Start(file, count), steps);
    var r := Run(Start(file, count), steps);
    forall a | a in r.answers && Judge(r.download.request, a.id, a.position, a.size, |a.data|) == ACCEPTED
      ensures r.download.chunk == None
    {
      ProvideKeeps(file, count, r.download, a);
    }
    if r.download.request.outstanding {
      CurrentIsNoDuplicate(file, count, r.download);
    }
  }

  lemma RunNone(r: Relay)
    ensures Runs(r, []) && Run(r, []) == r
  {
  }

  lemma RunOn(r: Relay, step: Step, rest: seq<Step>)
    requires Enabled(r, step) && Runs(Apply(r, step), rest)
    ensures Runs(r, [step] + rest) && Run(r, [step] + rest) == Run(Apply(r, step), rest)
  {
    hide Enabled, Apply;
    assert ([step] + rest)[1..] == rest;
  }

  /**
   A lost transport costs no data: from any reachable waiting state, reissuing the request
   over a live host, answering it and reading delivers exactly the next bytes.
   */
  lemma ReissueRecovers(file: Bytes, count: int, steps: seq<Step>)
    requires count > 0 && Runs(Start(file, count), steps)
    requires var d := Run(Start(file, count), steps).download; d.valid && d.request.outstanding
    ensures var r := Run(Start(file, count), steps);
      var request := r.download.request;
      var ask := Ask(request.id, request.position, request.size);
      var answer := Answer(request.id, request.position, request.size, Slice(file, request.position, request.size));
      var again := [HostReconnects(true), HostAnswers(ask), AnswerArrives(answer), Read(true)];
      && Runs(r, again)
      && Run(r, again).output == r.output + Slice(file, r.download.progress, RequestSize(count, |file| - r.download.progress))
      && |Run(r, again).output| > |r.output|
  {
    hide Runs, Run;
    RunKeepsInv(Start(file, count), steps);
    var r0 := Run(Start(file, count), steps);
    var request := r0.download.request;
    var ask := Ask(request.id, request.position, request.size);
    var data := Slice(file, request.position, request.size);
    var answer := Answer(request.id, request.position, request.size, data);
    var r1 := Apply(r0, HostReconnects(true));
    assert r1.download == r0.download && ask in r1.asks;
    var r2 := Apply(r1, HostAnswers(ask));
    assert answer in r2.answers;
    CurrentIsNoDuplicate(file, count, r2.download);
    var r3 := Apply(r2, AnswerArrives(answer));
    assert r3.download.chunk == Some(data);
    var r4 := Apply(r3, Read(true));
    assert r4.output == r0.output + data;
    var last: seq<Step> := [];
    RunNone(r4);
    RunOn(r3, Read(true), last);
    RunOn(r2, AnswerArrives(answer), [Read(true)] + last);
    RunOn(r1, HostAnswers(ask), [AnswerArrives(answer)] + ([Read(true)] + last));
    RunOn(r0, HostReconnects(true), [HostAnswers(ask)] + ([AnswerArrives(answer)] + ([Read(true)] + last)));
    assert [HostReconnects(true), HostAnswers(ask), AnswerArrives(answer), Read(true)]
        == [HostReconnects(true)] + ([HostAnswers(ask)] + ([AnswerArrives(answer)] + ([Read(true)] + last)));
  }

  // ---------- Progress ----------

  /**
   In every run: a read that finds no chunk and more to come leaves an outstanding request,
   and its ask on the wire; a new one is for the least of what the reader takes, 65536 bytes
   and what remains, at the reader's position.  With the host gone it gives the download up.
   */
  lemma ReadAsks(file: Bytes, count: int, steps: seq<Step>)
    requires count > 0 && Runs(Start(file, count), steps)
    requires var d := Run(Start(file, count), steps).download; d.valid && d.chunk.None? && d.progress < |file|
    ensures var r := Run(Start(file, count), steps);
      && Enabled(r, Read(true)) && Enabled(r, Read(false))
      && var next, gone := Apply(r, Read(true)), Apply(r, Read(false));
      var request := next.download.request;
      && next.download == r.download.(request := request) && next.output == r.output
      && request.outstanding && request.position == r.download.progress
      && IsLeast(request.size, count, |file| - r.download.progress)
      && Ask(request.id, request.position, request.size) in next.asks
      && !gone.download.valid && !gone.download.request.outstanding && gone.output == r.output
  {
    RunKeepsInv(Start(file, count), steps);
  }

  /** An answer to the outstanding request is judged accepted, and becomes the chunk to be read. */
  lemma Delivers(r: Relay) returns (more: seq<Step>)
    requires Inv(r) && r.download.valid && r.download.request.outstanding
    ensures Runs(r, more) && Inv(Run(r, more)) && Run(r, more).file == r.file && Run(r, more).count == r.count
    ensures Run(r, more).download.valid && Run(r, more).download.chunk.Some?
    ensures Run(r, more).download.progress == r.download.progress
  {
    hide Runs, Run;
    var request := r.download.request;
    var ask := Ask(request.id, request.position, request.size);
    var data := Slice(r.file, request.position, request.size);
    var answer := Answer(request.id, request.position, request.size, data);
    var r1 := Apply(r, HostReconnects(true));
    assert r1.download == r.download && ask in r1.asks;
    StepKeepsInv(r, HostReconnects(true));
    var r2 := Apply(r1, HostAnswers(ask));
    assert answer in r2.answers;
    StepKeepsInv(r1, HostAnswers(ask));
    CurrentIsNoDuplicate(r.file, r.count, r2.download);
    StepKeepsInv(r2, AnswerArrives(answer));
    var r3 := Apply(r2, AnswerArrives(answer));
    RunNone(r3);
    RunOn(r2, AnswerArrives(answer), []);
    RunOn(r1, HostAnswers(ask), [AnswerArrives(answer)] + []);
    RunOn(r, HostReconnects(true), [HostAnswers(ask)] + ([AnswerArrives(answer)] + []));
    more := [HostReconnects(true)] + ([HostAnswers(ask)] + ([AnswerArrives(answer)] + []));
  }

  lemma {:induction false} RunsTogether(r: Relay, a: seq<Step>, b: seq<Step>)
    requires Runs(r, a) && Runs(Run(r, a), b)
    ensures Runs(r, a + b) && Run(r, a + b) == Run(Run(r, a), b)
    decreases |a|
  {
    hide Enabled, Apply;
    if a == [] {
      assert a + b == b;
    } else {
      RunsTogether(Apply(r, a[0]), a[1..], b);
      assert a + b == [a[0]] + (a[1..] + b);
      RunOn(r, a[0], a[1..] + b);
    }
  }

  /** The next bytes reach the reader. */
  lemma Advances(r: Relay) returns (more: seq<Step>)
    requires Inv(r) && r.download.valid && r.download.progress < |r.file|
    ensures Runs(r, more) && Inv(Run(r, more)) && Run(r, more).file == r.file && Run(r, more).count == r.count
    ensures Run(r, more).download.valid && Run(r, more).download.progress > r.download.progress
  {
    hide Runs, Run, Inv;
    if r.download.chunk.Some? {
      ChunkIsRead(r);
      RunNone(Apply(r, Read(true)));
      RunOn(r, Read(true), []);
      more := [Read(true)] + [];
    } else {
      ReadRequests(r);
      var asked := Apply(r, Read(true));
      var delivering := Delivers(asked);
      var full := Run(asked, delivering);
      ChunkIsRead(full);
      RunNone(Apply(full, Read(true)));
      RunOn(full, Read(true), []);
      RunsTogether(asked, delivering, [Read(true)] + []);
      RunOn(r, Read(true), delivering + ([Read(true)] + []));
      more := [Read(true)] + (delivering + ([Read(true)] + []));
    }
  }

  lemma ChunkIsRead(r: Relay)
    requires Inv(r) && r.download.valid && r.download.chunk.Some?
    ensures var next := Apply(r, Read(true));
      && Enabled(r, Read(true)) && Inv(next) && next.file == r.file && next.count == r.count
      && next.download.valid && next.download.progress > r.download.progress
  {
    StepKeepsInv(r, Read(true));
  }

  lemma ReadRequests(r: Relay)
    requires Inv(r) && r.download.valid && r.download.chunk.None? && r.download.progress < |r.file|
    ensures var next := Apply(r, Read(true));
      && Enabled(r, Read(true)) && Inv(next) && next.file == r.file && next.count == r.count
      && next.download.valid && next.download.progress == r.download.progress && next.download.request.outstanding
  {
    StepKeepsInv(r, Read(true));
  }

  lemma {:induction false} Finishes(r: Relay) returns (more: seq<Step>)
    requires Inv(r) && r.download.valid
    ensures Runs(r, more) && Run(r, more).output == r.file
    ensures Run(r, more).download.valid && Run(r, more).download.progress == |r.file|
    decreases |r.file| - r.download.progress
  {
    hide Runs, Run;
    if r.download.progress == |r.file| {
      RunNone(r);
      more := [];
    } else {
      var first := Advances(r);
      var rest := Finishes(Run(r, first));
      RunsTogether(r, first, rest);
      more := first + rest;
    }
  }

  /** From every state a run reaches with the download still valid, some run delivers the whole file. */
  lemma DownloadCanFinish(file: Bytes, count: int, steps: seq<Step>)
    requires count > 0 && Runs(Start(file, count), steps) && Run(Start(file, count), steps).download.valid
    ensures var r := Run(Start(file, count), steps);
      exists more ::
        && Runs(r, more)
        && Run(r, more).output == file && Run(r, more).download.valid && Run(r, more).download.progress == |file|
  {
    hide Runs, Run, Inv;
    StartIsSound(file, count);
    RunKeepsInv(Start(file, count), steps);
    var more := Finishes(Run(Start(file, count), steps));
  }

  lemma StartIsSound(file: Bytes, count: int)
    requires count > 0
    ensures Inv(Start(file, count))
  {
  }

  // ---------- Repeated answers ----------

  ghost predicate Completed(d: Download, answer: Answer) {
    && answer.id == d.request.completedId && answer.position == d.request.completedPosition
    && answer.size == d.request.completedSize && answer.size == |answer.data|
  }

  /** No answer of these steps brings a new chunk. */
  ghost predicate NoneAccepted(r: Relay, steps: seq<Step>)
    requires Runs(r, steps)
    decreases |steps|
  {
    steps == [] || (
      && (steps[0].AnswerArrives? ==> Apply(r, steps[0]).download.chunk == r.download.chunk)
      && NoneAccepted(Apply(r, steps[0]), steps[1..]))
  }

  lemma {:induction false} CompletedStays(r: Relay, answer: Answer, more: seq<Step>)
    requires Inv(r) && Completed(r.download, answer) && Runs(r, more) && NoneAccepted(r, more)
    ensures Completed(Run(r, more).download, answer)
    decreases |more|
  {
    if more != [] {
      StepKeepsInv(r, more[0]);
      CompletedStays(Apply(r, more[0]), answer, more[1..]);
    }
  }

  /**
   An answer that was accepted and arrives again, however often and late, while no other has
   been accepted, is a duplicate: it is not held against the host, and it changes nothing.
   */
  lemma RepeatIsDuplicate(file: Bytes, count: int, steps: seq<Step>, answer: Answer, more: seq<Step>)
    requires count > 0 && Runs(Start(file, count), steps)
    requires var r := Run(Start(file, count), steps);
      && Enabled(r, AnswerArrives(answer))
      && r.download.chunk.None? && Apply(r, AnswerArrives(answer)).download.chunk.Some?
      && Runs(Apply(r, AnswerArrives(answer)), more) && NoneAccepted(Apply(r, AnswerArrives(answer)), more)
    ensures var after := Run(Apply(Run(Start(file, count), steps), AnswerArrives(answer)), more);
      && ProvideVerdict(after.download, answer.id, answer.position, answer.size, answer.data) == DUPLICATE
      && Provide(after.download, answer.id, answer.position, answer.size, answer.data) == after.download
  {
    RunKeepsInv(Start(file, count), steps);
    var r := Run(Start(file, count), steps);
    StepKeepsInv(r, AnswerArrives(answer));
    CompletedStays(Apply(r, AnswerArrives(answer)), answer, more);
  }
}
