/**
 Preview controllers, their registry and the memory they share, as a step system: every step
 is one uninterrupted run of an event handler or of a resumed download or decode
 (front/chat/image-preview.js, lines 282 to 302 and 323 to 416).
 */
module PreviewRegistry {
  import opened Wrappers
  import opened PreviewMemory

  /** The phases of a preview; the last stands for every phase that has no way out. */
  datatype Phase = Offered | Downloading | Decoding | Visible | Cancelled | Evicted | Retryable | Ended

  /** A suspended load: the generation it started in, and what it waits for. */
  datatype Flight = Flight(own: nat, decoding: bool)

  datatype Controller = Controller(
    id: Id, phase: Phase, generation: nat, url: Option<nat>, disposed: bool, flights: seq<Flight>)

  /** Object URLs are numbered as they are created. */
  datatype World = World(
    heap: seq<Controller>, registered: map<Id, nat>, entries: seq<Entry>, tick: nat,
    created: nat, revoked: multiset<nat>)

  /** How a download ends, and how the inspection of its bytes does. */
  datatype Arrival = Aborted | TooBig | Failed | Refused | Inspected(bytes: nat, pixels: nat)

  datatype Decode = Fine | Mismatch | Broken

  /** The buttons' steps need a controller that is not disposed: disposing removes their listeners. */
  datatype Step =
    | Register(id: Id)
    | Unregister(id: Id)
    | SourceReloaded(id: Id)
    | ClearAll
    | Load(ref: nat)
    | Arrive(ref: nat, flight: nat, arrival: Arrival)
    | Finish(ref: nat, flight: nat, decode: Decode)
    | Cancel(ref: nat)
    | Unload(ref: nat)
    | Use(ref: nat)

  // ---------- The handlers ----------

  predicate Startable(phase: Phase) {
    phase in {Offered, Evicted, Cancelled, Retryable}
  }

  predicate Holding(phase: Phase) {
    phase == Decoding || phase == Visible
  }

  /** Give up the budget entry and revoke the URL. */
  function Release(w: World, ref: nat, c: Controller): World
    requires ref < |w.heap|
  {
    w.(heap := w.heap[ref := c.(url := None)],
       entries := Without(w.entries, c.id),
       revoked := if c.url.Some? then w.revoked + multiset{c.url.value} else w.revoked)
  }

  /** End the current load in some phase. */
  function Terminate(w: World, ref: nat, phase: Phase): World
    requires ref < |w.heap|
  {
    Release(w, ref, w.heap[ref].(phase := phase))
  }

  /** The same, and let every load still in flight find that it is late. */
  function Abandon(w: World, ref: nat, phase: Phase): World
    requires ref < |w.heap|
  {
    var c := w.heap[ref];
    Release(w, ref, c.(phase := phase, generation := c.generation + 1))
  }

  function Dispose(w: World, ref: nat, phase: Phase): World
    requires ref < |w.heap|
  {
    var c := w.heap[ref];
    var next := Release(w, ref, c.(phase := phase, generation := c.generation + 1, disposed := true));
    next.(registered := next.registered - {c.id})
  }

  function Remove(w: World, id: Id): World {
    if id !in w.registered then w.(entries := Without(w.entries, id))
    else if w.registered[id] >= |w.heap| || w.heap[w.registered[id]].disposed then w
    else Dispose(w, w.registered[id], w.heap[w.registered[id]].phase)
  }

  /** Evict the least recently used previews until there is room; each one's controller is told. */
  ghost function MakeRoom(w: World, bytes: nat, pixels: nat): World
    decreases |w.entries|
  {
    if w.entries == [] || Room(w.entries, bytes, pixels) then w
    else
      var oldest := OldestOf(w.entries);
      OldestIsHeld(w.entries, oldest);
      MakeRoom(EvictOne(w, oldest.id), bytes, pixels)
  }

  function EvictOne(w: World, id: Id): (next: World)
    ensures next.entries == Without(w.entries, id)
  {
    if id in w.registered && w.registered[id] < |w.heap| && w.heap[w.registered[id]].id == id then
      Abandon(w, w.registered[id], Evicted)
    else
      w.(entries := Without(w.entries, id))
  }

  function SetFlight(c: Controller, i: nat, flights: seq<Flight>): Controller {
    c.(flights := if i < |c.flights| then c.flights[..i] + flights + c.flights[i + 1..] else c.flights)
  }

  /** A verified image enters the memory and gets its URL; then it is decoded. */
  ghost function Admit(w: World, ref: nat, own: nat, bytes: nat, pixels: nat): World
    requires ref < |w.heap|
  {
    if bytes > RETAINED_BYTES || pixels > LIVE_PIXELS then Terminate(w, ref, Ended)
    else
      var id := w.heap[ref].id;
      var roomy := MakeRoom(w.(entries := Without(w.entries, id)), bytes, pixels);
      if ref >= |roomy.heap| then roomy
      else
        var c := roomy.heap[ref];
        roomy.(
          heap := roomy.heap[ref := c.(phase := Decoding, url := Some(roomy.created),
                                       flights := c.flights + [Flight(own, true)])],
          entries := roomy.entries + [Entry(id, bytes, pixels, roomy.tick + 1)],
          tick := roomy.tick + 1, created := roomy.created + 1)
  }

  /** The download of a flight has ended; a late one changes nothing. */
  ghost function Arrived(w: World, ref: nat, i: nat, arrival: Arrival): World
    requires ref < |w.heap| && i < |w.heap[ref].flights|
  {
    var c, own := w.heap[ref], w.heap[ref].flights[i].own;
    var landed := w.(heap := w.heap[ref := SetFlight(c, i, [])]);
    if c.disposed || own != c.generation then landed
    else
      match arrival
      case Aborted => Terminate(landed, ref, Cancelled)
      case TooBig => Terminate(landed, ref, Ended)
      case Failed => Terminate(landed, ref, Retryable)
      case Refused => Terminate(landed, ref, Ended)
      case Inspected(bytes, pixels) => Admit(landed, ref, own, bytes, pixels)
  }

  function Decoded(w: World, ref: nat, i: nat, decode: Decode): World
    requires ref < |w.heap| && i < |w.heap[ref].flights|
  {
    var c, own := w.heap[ref], w.heap[ref].flights[i].own;
    var landed := w.(heap := w.heap[ref := SetFlight(c, i, [])]);
    if c.disposed || own != c.generation || c.phase != Decoding then landed
    else
      match decode
      case Fine => landed.(heap := landed.heap[ref := landed.heap[ref].(phase := Visible)])
      case Mismatch => Terminate(landed, ref, Ended)
      case Broken => Terminate(landed, ref, Retryable)
  }

  ghost function RemoveAll(w: World, ids: set<Id>): World
    decreases ids
  {
    if ids == {} then w
    else
      var id :| id in ids;
      RemoveAll(Remove(w, id), ids - {id})
  }

  /** A step that is not enabled changes nothing. */
  ghost function Apply(w: World, step: Step): World {
    match step
    case Register(id) =>
      var cleared := Remove(w, id);
      cleared.(heap := cleared.heap + [Controller(id, Offered, 0, None, false, [])],
               registered := cleared.registered[id := |cleared.heap|])
    case Unregister(id) => Remove(w, id)
    case SourceReloaded(id) =>
      if id in w.registered && w.registered[id] < |w.heap| && !w.heap[w.registered[id]].disposed then
        Dispose(w, w.registered[id], Ended)
      else w
    case ClearAll => RemoveAll(w, w.registered.Keys).(entries := [])
    case Load(ref) =>
      if ref < |w.heap| && !w.heap[ref].disposed && Startable(w.heap[ref].phase) then
        var c := w.heap[ref];
        w.(heap := w.heap[ref := c.(phase := Downloading, generation := c.generation + 1,
                                    flights := c.flights + [Flight(c.generation + 1, false)])])
      else w
    case Arrive(ref, i, arrival) =>
      if ref < |w.heap| && i < |w.heap[ref].flights| && !w.heap[ref].flights[i].decoding then
        Arrived(w, ref, i, arrival)
      else w
    case Finish(ref, i, decode) =>
      if ref < |w.heap| && i < |w.heap[ref].flights| && w.heap[ref].flights[i].decoding then
        Decoded(w, ref, i, decode)
      else w
    case Cancel(ref) =>
      if ref < |w.heap| && !w.heap[ref].disposed && w.heap[ref].phase in {Downloading, Decoding} then
        Abandon(w, ref, Cancelled)
      else w
    case Unload(ref) =>
      if ref < |w.heap| && !w.heap[ref].disposed && w.heap[ref].phase == Visible then Abandon(w, ref, Cancelled)
      else w
    case Use(ref) =>
      if ref < |w.heap| && !w.heap[ref].disposed && w.heap[ref].phase == Visible then
        w.(entries := Touched(w.entries, w.heap[ref].id, w.tick + 1), tick := w.tick + 1)
      else w
  }

  ghost function Run(w: World, steps: seq<Step>): World {
    if steps == [] then w else Apply(Run(w, steps[..|steps| - 1]), steps[|steps| - 1])
  }

  const EMPTY := World([], map[], [], 0, 0, multiset{})

  // ---------- The invariant ----------

  /** A load that is still current waits for what the phase says. */
  ghost predicate FlightsFit(c: Controller) {
    && (forall i :: 0 <= i < |c.flights| ==>
          && c.flights[i].own <= c.generation
          && (c.flights[i].own == c.generation ==> c.phase == if c.flights[i].decoding then Decoding else Downloading))
    && forall i, j :: 0 <= i < j < |c.flights| ==> c.flights[i].own != c.flights[j].own
  }

  ghost predicate Good(c: Controller) {
    if c.disposed then c.url.None? else (c.url.Some? <==> Holding(c.phase)) && FlightsFit(c)
  }

  ghost predicate AllGood(heap: seq<Controller>) {
    forall ref :: 0 <= ref < |heap| ==> Good(heap[ref])
  }

  /** The registry names exactly the controllers that are not disposed. */
  ghost predicate Linked(heap: seq<Controller>, registered: map<Id, nat>) {
    && (forall id :: id in registered ==>
          registered[id] < |heap| && heap[registered[id]].id == id && !heap[registered[id]].disposed)
    && forall ref :: 0 <= ref < |heap| && !heap[ref].disposed ==>
         heap[ref].id in registered && registered[heap[ref].id] == ref
  }

  ghost predicate HoldsUrl(heap: seq<Controller>, registered: map<Id, nat>, id: Id) {
    id in registered && registered[id] < |heap| && heap[registered[id]].url.Some?
  }

  /** A registered controller holds a URL just when the memory has its entry. */
  ghost predicate Budgeted(heap: seq<Controller>, registered: map<Id, nat>, entries: seq<Entry>) {
    forall id :: Holds(entries, id) <==> HoldsUrl(heap, registered, id)
  }

  ghost function HeldCount(heap: seq<Controller>, url: nat): nat {
    if heap == [] then 0
    else HeldCount(heap[..|heap| - 1], url) + if heap[|heap| - 1].url == Some(url) then 1 else 0
  }

  /** Every URL created is held by one controller or has been revoked once, and never both. */
  ghost predicate Accounted(w: World) {
    forall url: nat :: HeldCount(w.heap, url) + w.revoked[url] == if url < w.created then 1 else 0
  }

  ghost predicate Inv(w: World) {
    && Sound(w.entries, w.tick) && AllGood(w.heap) && Linked(w.heap, w.registered)
    && Budgeted(w.heap, w.registered, w.entries) && Accounted(w)
  }

  // ---------- How the parts of the invariant change ----------

  lemma {:induction false} CountUpdate(heap: seq<Controller>, ref: nat, c: Controller, url: nat)
    requires ref < |heap|
    ensures HeldCount(heap[ref := c], url) + (if heap[ref].url == Some(url) then 1 else 0)
         == HeldCount(heap, url) + if c.url == Some(url) then 1 else 0
  {
    var n := |heap| - 1;
    if ref == n {
      assert heap[ref := c][..n] == heap[..n];
    } else {
      CountUpdate(heap[..n], ref, c, url);
      assert heap[ref := c][..n] == heap[..n][ref := c];
    }
  }

  lemma CountMore(heap: seq<Controller>, c: Controller, url: nat)
    requires c.url.None?
    ensures HeldCount(heap + [c], url) == HeldCount(heap, url)
  {
    assert (heap + [c])[..|heap|] == heap;
  }

  lemma HoldsWithout(entries: seq<Entry>, id: Id, other: Id)
    ensures Holds(Without(entries, id), other) <==> Holds(entries, other) && other != id
  {
    WithoutIsPart(entries, id);
    var rest := Without(entries, id);
    if Holds(entries, other) && other != id {
      var i :| 0 <= i < |entries| && entries[i].id == other;
      var k := WithoutKeepsOthers(entries, id, i);
      assert rest[k].id == other;
    }
    if Holds(rest, other) {
      var k :| 0 <= k < |rest| && rest[k].id == other;
      var i :| 0 <= i < |entries| && entries[i] == rest[k];
      assert entries[i].id == other;
    }
  }

  lemma WithoutIsSound(entries: seq<Entry>, tick: nat, id: Id)
    requires Sound(entries, tick)
    ensures Sound(Without(entries, id), tick)
  {
    WithoutIsPart(entries, id);
    WithoutKeepsDistinct(entries, id);
    WithoutShrinks(entries, id);
  }

  /** One controller changes, but neither its id, its URL nor whether it is disposed. */
  lemma ChangeKeeps(w: World, ref: nat, c: Controller)
    requires Inv(w) && ref < |w.heap| && Good(c)
    requires c.id == w.heap[ref].id && c.url == w.heap[ref].url && c.disposed == w.heap[ref].disposed
    ensures Inv(w.(heap := w.heap[ref := c]))
  {
    hide Sound, Good, Holds;
    var next := w.(heap := w.heap[ref := c]);
    forall url: nat ensures HeldCount(next.heap, url) == HeldCount(w.heap, url) {
      CountUpdate(w.heap, ref, c, url);
    }
    forall id ensures HoldsUrl(next.heap, next.registered, id) <==> HoldsUrl(w.heap, w.registered, id) {
    }
  }

  lemma ReleaseAccounts(w: World, ref: nat, c: Controller)
    requires Accounted(w) && ref < |w.heap| && c.url == w.heap[ref].url
    ensures Accounted(Release(w, ref, c))
  {
    var next := Release(w, ref, c);
    forall url: nat
      ensures HeldCount(next.heap, url) + next.revoked[url] == HeldCount(w.heap, url) + w.revoked[url]
    {
      CountUpdate(w.heap, ref, c.(url := None), url);
    }
  }

  lemma ReleaseBudgets(w: World, ref: nat, c: Controller)
    requires Linked(w.heap, w.registered) && Budgeted(w.heap, w.registered, w.entries)
    requires ref < |w.heap| && !w.heap[ref].disposed && c.id == w.heap[ref].id
    ensures var next := Release(w, ref, c); Budgeted(next.heap, next.registered, next.entries)
  {
    var next := Release(w, ref, c);
    forall id ensures Holds(next.entries, id) <==> HoldsUrl(next.heap, next.registered, id) {
      HoldsWithout(w.entries, c.id, id);
    }
  }

  lemma ReleaseKeeps(w: World, ref: nat, c: Controller)
    requires Inv(w) && ref < |w.heap| && !w.heap[ref].disposed && !c.disposed
    requires c.id == w.heap[ref].id && c.url == w.heap[ref].url && Good(c.(url := None))
    ensures Inv(Release(w, ref, c))
  {
    hide Sound, Good, Accounted, Budgeted;
    WithoutIsSound(w.entries, w.tick, c.id);
    ReleaseAccounts(w, ref, c);
    ReleaseBudgets(w, ref, c);
  }

  lemma AbandonKeeps(w: World, ref: nat, phase: Phase)
    requires Inv(w) && ref < |w.heap| && !w.heap[ref].disposed && !Holding(phase) && phase != Downloading
    ensures Inv(Abandon(w, ref, phase))
  {
    hide Sound, Accounted, Budgeted, Linked, Without;
    var c := w.heap[ref];
    assert Good(c);
    ReleaseKeeps(w, ref, c.(phase := phase, generation := c.generation + 1));
  }

  lemma DisposeKeeps(w: World, ref: nat, phase: Phase)
    requires Inv(w) && ref < |w.heap| && !w.heap[ref].disposed
    ensures Inv(Dispose(w, ref, phase))
  {
    hide Without, FlightsFit;
    hide Sound, Accounted, Holds;
    var c := w.heap[ref];
    var gone := c.(phase := phase, generation := c.generation + 1, disposed := true);
    var next := Dispose(w, ref, phase);
    WithoutIsSound(w.entries, w.tick, c.id);
    ReleaseAccounts(w, ref, gone);
    AccountsOnly(Release(w, ref, gone), next);
    forall id ensures Holds(next.entries, id) <==> HoldsUrl(next.heap, next.registered, id) {
      HoldsWithout(w.entries, c.id, id);
    }
  }

  lemma AccountsOnly(w: World, next: World)
    requires Accounted(w) && next.heap == w.heap && next.created == w.created && next.revoked == w.revoked
    ensures Accounted(next)
  {
  }

  lemma RemoveKeeps(w: World, id: Id)
    requires Inv(w)
    ensures Inv(Remove(w, id)) && id !in Remove(w, id).registered
  {
    if id in w.registered {
      DisposeKeeps(w, w.registered[id], w.heap[w.registered[id]].phase);
    } else {
      UnheldStays(w, id);
    }
  }

  lemma {:induction false} WithoutNothing(entries: seq<Entry>, id: Id)
    requires !Holds(entries, id)
    ensures Without(entries, id) == entries
  {
    if entries != [] {
      var n := |entries| - 1;
      assert entries[n].id != id && forall i :: 0 <= i < n ==> entries[..n][i] == entries[i];
      WithoutNothing(entries[..n], id);
      assert entries == entries[..n] + [entries[n]];
    }
  }

  lemma UnheldStays(w: World, id: Id)
    requires Inv(w) && !HoldsUrl(w.heap, w.registered, id)
    ensures w.(entries := Without(w.entries, id)) == w
  {
    assert !Holds(w.entries, id);
    WithoutNothing(w.entries, id);
  }

  // ---------- Making room and admitting ----------

  lemma EvictOneKeeps(w: World, id: Id)
    requires Inv(w) && Holds(w.entries, id)
    ensures Inv(EvictOne(w, id)) && EvictOne(w, id).registered == w.registered
    ensures forall ref :: 0 <= ref < |w.heap| && w.heap[ref].url.None? ==>
              ref < |EvictOne(w, id).heap| && EvictOne(w, id).heap[ref] == w.heap[ref]
  {
    assert HoldsUrl(w.heap, w.registered, id);
    AbandonKeeps(w, w.registered[id], Evicted);
  }

  /** Making room evicts what the memory evicts, and leaves every other controller alone. */
  lemma {:induction false} MakeRoomKeeps(w: World, bytes: nat, pixels: nat)
    requires Inv(w)
    ensures var next := MakeRoom(w, bytes, pixels);
            && Inv(next) && next.registered == w.registered
            && next.entries == Evict(w.entries, bytes, pixels).kept
            && forall ref :: 0 <= ref < |w.heap| && w.heap[ref].url.None? ==>
                 ref < |next.heap| && next.heap[ref] == w.heap[ref]
    decreases |w.entries|
  {
    hide Inv, Room, EvictOne;
    if w.entries != [] && !Room(w.entries, bytes, pixels) {
      var oldest := OldestOf(w.entries);
      OldestIsHeld(w.entries, oldest);
      assert Holds(w.entries, oldest.id);
      EvictOneKeeps(w, oldest.id);
      MakeRoomKeeps(EvictOne(w, oldest.id), bytes, pixels);
    }
  }

  lemma DownloadHoldsNothing(w: World, ref: nat)
    requires Inv(w) && ref < |w.heap| && !w.heap[ref].disposed && w.heap[ref].phase == Downloading
    ensures w.heap[ref].url.None? && !HoldsUrl(w.heap, w.registered, w.heap[ref].id) && FlightsFit(w.heap[ref])
    ensures Sound(w.entries, w.tick)
  {
    hide Sound, Accounted, Budgeted;
    assert Good(w.heap[ref]);
  }

  /** No flight of the controller is current: the current one has just landed. */
  ghost predicate Landed(c: Controller) {
    !c.disposed && forall i :: 0 <= i < |c.flights| ==> c.flights[i].own != c.generation
  }

  lemma EndKeeps(w: World, ref: nat, phase: Phase)
    requires Inv(w) && ref < |w.heap| && Landed(w.heap[ref]) && !Holding(phase)
    ensures Inv(Terminate(w, ref, phase))
  {
    hide Sound, Accounted, Budgeted, Linked;
    var c := w.heap[ref];
    assert Good(c);
    EndedFits(c, phase);
    ReleaseKeeps(w, ref, c.(phase := phase));
  }

  lemma AdmitKeeps(w: World, ref: nat, bytes: nat, pixels: nat)
    requires Inv(w) && ref < |w.heap| && Landed(w.heap[ref]) && w.heap[ref].phase == Downloading
    ensures Inv(Admit(w, ref, w.heap[ref].generation, bytes, pixels))
  {
    hide Room, Sound, Inv, HoldsUrl, Landed, MakeRoom, Linked, Release;
    var c := w.heap[ref];
    if bytes > RETAINED_BYTES || pixels > LIVE_PIXELS {
      EndKeeps(w, ref, Ended);
    } else {
      IsLanded(c);
      DownloadHoldsNothing(w, ref);
      UnheldStays(w, c.id);
      MakeRoomKeeps(w, bytes, pixels);
      MadeRoom(w, bytes, pixels);
      AdmitInto(MakeRoom(w, bytes, pixels), ref, bytes, pixels);
    }
  }

  lemma IsLanded(c: Controller)
    requires Landed(c)
    ensures !c.disposed
  {
  }

  lemma EndedFits(c: Controller, phase: Phase)
    requires FlightsFit(c) && forall i :: 0 <= i < |c.flights| ==> c.flights[i].own != c.generation
    ensures FlightsFit(c.(phase := phase))
  {
  }

  lemma MadeRoom(w: World, bytes: nat, pixels: nat)
    requires Sound(w.entries, w.tick) && bytes <= RETAINED_BYTES && pixels <= LIVE_PIXELS
    requires MakeRoom(w, bytes, pixels).entries == Evict(w.entries, bytes, pixels).kept
    ensures Room(MakeRoom(w, bytes, pixels).entries, bytes, pixels)
  {
    var since := EvictsShortestPrefix(w.entries, bytes, pixels);
  }

  lemma AdmitInto(w: World, ref: nat, bytes: nat, pixels: nat)
    requires Inv(w) && ref < |w.heap| && Landed(w.heap[ref]) && w.heap[ref].phase == Downloading
    requires Room(w.entries, bytes, pixels)
    ensures var c := w.heap[ref];
            Inv(w.(heap := w.heap[ref := c.(phase := Decoding, url := Some(w.created),
                                            flights := c.flights + [Flight(c.generation, true)])],
                   entries := w.entries + [Entry(c.id, bytes, pixels, w.tick + 1)],
                   tick := w.tick + 1, created := w.created + 1))
  {
    hide Room, Accounted, Sound, Holds;
    var c := w.heap[ref];
    var e := Entry(c.id, bytes, pixels, w.tick + 1);
    var held := c.(phase := Decoding, url := Some(w.created), flights := c.flights + [Flight(c.generation, true)]);
    var next := w.(heap := w.heap[ref := held], entries := w.entries + [e], tick := w.tick + 1, created := w.created + 1);
    DownloadHoldsNothing(w, ref);
    NotHeldIsFree(w.entries, c.id, w.tick);
    AdmittedIsSound(w.entries, e);
    CreateAccounts(w, ref, held, next);
    LaunchFits(c);
    forall id ensures Holds(next.entries, id) <==> HoldsUrl(next.heap, next.registered, id) {
      HoldsMore(w.entries, e, id);
      assert id != c.id ==> (HoldsUrl(next.heap, next.registered, id) <==> HoldsUrl(w.heap, w.registered, id));
    }
  }

  lemma LaunchFits(c: Controller)
    requires Landed(c) && FlightsFit(c)
    ensures FlightsFit(c.(phase := Decoding, flights := c.flights + [Flight(c.generation, true)]))
  {
  }

  lemma NotHeldIsFree(entries: seq<Entry>, id: Id, tick: nat)
    requires Sound(entries, tick) && !Holds(entries, id)
    ensures Free(entries, id, tick)
  {
  }

  lemma HoldsMore(entries: seq<Entry>, e: Entry, id: Id)
    ensures Holds(entries + [e], id) <==> Holds(entries, id) || e.id == id
  {
    var more := entries + [e];
    assert more[|entries|] == e;
    if Holds(entries, id) {
      var i :| 0 <= i < |entries| && entries[i].id == id;
      assert more[i].id == id;
    }
  }

  lemma CreateAccounts(w: World, ref: nat, held: Controller, next: World)
    requires Accounted(w) && ref < |w.heap| && w.heap[ref].url.None? && held.url == Some(w.created)
    requires next.heap == w.heap[ref := held] && next.created == w.created + 1 && next.revoked == w.revoked
    ensures Accounted(next)
  {
    forall url: nat ensures HeldCount(next.heap, url) + next.revoked[url] == if url < next.created then 1 else 0 {
      CountUpdate(w.heap, ref, held, url);
    }
  }

  // ---------- Every step keeps the invariant ----------

  lemma LandFits(c: Controller, i: nat)
    requires i < |c.flights| && FlightsFit(c)
    ensures FlightsFit(SetFlight(c, i, []))
    ensures !c.disposed && c.flights[i].own == c.generation ==> Landed(SetFlight(c, i, []))
  {
    var landed := SetFlight(c, i, []).flights;
    forall k | 0 <= k < |landed| ensures landed[k] == c.flights[if k < i then k else k + 1] {
    }
  }

  lemma LandKeeps(w: World, ref: nat, i: nat)
    requires Inv(w) && ref < |w.heap| && i < |w.heap[ref].flights|
    ensures Inv(w.(heap := w.heap[ref := SetFlight(w.heap[ref], i, [])]))
    ensures !w.heap[ref].disposed ==>
              && FlightsFit(w.heap[ref])
              && (w.heap[ref].flights[i].own == w.heap[ref].generation ==> Landed(SetFlight(w.heap[ref], i, [])))
  {
    hide Sound, Accounted, Budgeted, Linked, FlightsFit, Landed;
    var c := w.heap[ref];
    assert Good(c);
    if !c.disposed {
      LandFits(c, i);
    }
    ChangeKeeps(w, ref, SetFlight(c, i, []));
  }

  lemma ArrivedKeeps(w: World, ref: nat, i: nat, arrival: Arrival)
    requires Inv(w) && ref < |w.heap| && i < |w.heap[ref].flights| && !w.heap[ref].flights[i].decoding
    ensures Inv(Arrived(w, ref, i, arrival))
  {
    hide Inv, Landed, Release, Admit;
    var c := w.heap[ref];
    var landed := w.(heap := w.heap[ref := SetFlight(c, i, [])]);
    LandKeeps(w, ref, i);
    if !c.disposed && c.flights[i].own == c.generation {
      match arrival
      case Aborted => EndKeeps(landed, ref, Cancelled);
      case TooBig => EndKeeps(landed, ref, Ended);
      case Failed => EndKeeps(landed, ref, Retryable);
      case Refused => EndKeeps(landed, ref, Ended);
      case Inspected(bytes, pixels) => AdmitKeeps(landed, ref, bytes, pixels);
    }
  }

  lemma DecodedKeeps(w: World, ref: nat, i: nat, decode: Decode)
    requires Inv(w) && ref < |w.heap| && i < |w.heap[ref].flights| && w.heap[ref].flights[i].decoding
    ensures Inv(Decoded(w, ref, i, decode))
  {
    hide Inv, Release;
    var c := w.heap[ref];
    var landed := w.(heap := w.heap[ref := SetFlight(c, i, [])]);
    LandKeeps(w, ref, i);
    if !c.disposed && c.flights[i].own == c.generation && c.phase == Decoding {
      match decode
      case Fine => ShowKeeps(landed, ref);
      case Mismatch => EndKeeps(landed, ref, Ended);
      case Broken => EndKeeps(landed, ref, Retryable);
    }
  }

  lemma ShowKeeps(w: World, ref: nat)
    requires Inv(w) && ref < |w.heap| && Landed(w.heap[ref]) && w.heap[ref].phase == Decoding
    ensures Inv(w.(heap := w.heap[ref := w.heap[ref].(phase := Visible)]))
  {
    hide Sound, Accounted, Budgeted, Linked;
    var c := w.heap[ref];
    assert Good(c);
    ChangeKeeps(w, ref, c.(phase := Visible));
  }

  lemma LoadKeeps(w: World, ref: nat)
    requires Inv(w) && ref < |w.heap| && !w.heap[ref].disposed && Startable(w.heap[ref].phase)
    ensures Inv(Apply(w, Load(ref)))
  {
    hide Sound, Accounted, Budgeted, Linked;
    var c := w.heap[ref];
    assert Good(c);
    ChangeKeeps(w, ref, c.(phase := Downloading, generation := c.generation + 1,
                           flights := c.flights + [Flight(c.generation + 1, false)]));
  }

  /** A new controller holds no URL and takes the place of a removed one. */
  lemma NewControllerKeeps(w: World, next: World, id: Id)
    requires Inv(w) && id !in w.registered
    requires next == w.(heap := w.heap + [Controller(id, Offered, 0, None, false, [])],
                        registered := w.registered[id := |w.heap|])
    ensures Inv(next)
  {
    hide Sound, Holds, HeldCount;
    forall url: nat ensures HeldCount(next.heap, url) == HeldCount(w.heap, url) {
      CountMore(w.heap, next.heap[|w.heap|], url);
    }
    forall other ensures HoldsUrl(next.heap, next.registered, other) <==> HoldsUrl(w.heap, w.registered, other) {
    }
  }

  lemma RegisterKeeps(w: World, id: Id)
    requires Inv(w)
    ensures Inv(Apply(w, Register(id)))
  {
    hide Inv, Remove;
    RemoveKeeps(w, id);
    NewControllerKeeps(Remove(w, id), Apply(w, Register(id)), id);
  }

  lemma {:induction false} RemoveAllKeeps(w: World, ids: set<Id>)
    requires Inv(w)
    ensures Inv(RemoveAll(w, ids))
    ensures forall id :: id in RemoveAll(w, ids).registered ==> id in w.registered && id !in ids
    decreases ids
  {
    hide Inv, Remove;
    if ids != {} {
      var id :| id in ids && RemoveAll(w, ids) == RemoveAll(Remove(w, id), ids - {id});
      RemoveKeeps(w, id);
      RemoveShrinks(w, id);
      RemoveAllKeeps(Remove(w, id), ids - {id});
    }
  }

  lemma RemoveShrinks(w: World, id: Id)
    ensures forall other :: other in Remove(w, id).registered ==> other in w.registered
  {
  }

  /** Once no controller is registered, the memory is empty: clearing it takes nothing away. */
  lemma ClearKeeps(w: World)
    requires Inv(w)
    ensures Inv(Apply(w, ClearAll))
  {
    hide Remove, RemoveAll;
    RemoveAllKeeps(w, w.registered.Keys);
    var next := RemoveAll(w, w.registered.Keys);
    forall id ensures !Holds(next.entries, id) {
      assert !HoldsUrl(next.heap, next.registered, id);
    }
    HoldsNone(next.entries);
  }

  lemma HoldsNone(entries: seq<Entry>)
    requires forall id :: !Holds(entries, id)
    ensures entries == []
  {
    assert |entries| > 0 ==> Holds(entries, entries[0].id);
  }

  lemma TouchedHolds(entries: seq<Entry>, id: Id, tick: nat, other: Id)
    ensures Holds(Touched(entries, id, tick), other) <==> Holds(entries, other)
  {
    hide Touched, Bytes, Pixels;
    var touched := Touched(entries, id, tick);
    TouchedSameSize(entries, id, tick);
    if Holds(entries, other) {
      var i :| 0 <= i < |entries| && entries[i].id == other;
      assert touched[i].id == other;
    }
  }

  lemma UseKeeps(w: World, ref: nat)
    requires Inv(w) && ref < |w.heap| && w.heap[ref].phase == Visible
    ensures Inv(Apply(w, Use(ref)))
  {
    hide Sound, HoldsUrl, Touched, Holds, AllGood, Linked, HeldCount;
    var next := Apply(w, Use(ref));
    if !w.heap[ref].disposed {
      TouchedIsSound(w.entries, w.heap[ref].id, w.tick);
      forall id ensures Holds(next.entries, id) <==> Holds(w.entries, id) {
        TouchedHolds(w.entries, w.heap[ref].id, w.tick + 1, id);
      }
      AccountsOnly(w, next);
    }
  }

  lemma StepKeeps(w: World, step: Step)
    requires Inv(w)
    ensures Inv(Apply(w, step))
  {
    hide Inv, Remove, Abandon, Dispose, Arrived, Decoded;
    match step
    case Register(id) => RegisterKeeps(w, id);
    case Unregister(id) => RemoveKeeps(w, id);
    case SourceReloaded(id) =>
      if id in w.registered && w.registered[id] < |w.heap| && !w.heap[w.registered[id]].disposed {
        DisposeKeeps(w, w.registered[id], Ended);
      }
    case ClearAll => ClearKeeps(w);
    case Load(ref) =>
      if ref < |w.heap| && !w.heap[ref].disposed && Startable(w.heap[ref].phase) {
        LoadKeeps(w, ref);
      }
    case Arrive(ref, i, arrival) =>
      if ref < |w.heap| && i < |w.heap[ref].flights| && !w.heap[ref].flights[i].decoding {
        ArrivedKeeps(w, ref, i, arrival);
      }
    case Finish(ref, i, decode) =>
      if ref < |w.heap| && i < |w.heap[ref].flights| && w.heap[ref].flights[i].decoding {
        DecodedKeeps(w, ref, i, decode);
      }
    case Cancel(ref) =>
      if ref < |w.heap| && !w.heap[ref].disposed && w.heap[ref].phase in {Downloading, Decoding} {
        AbandonKeeps(w, ref, Cancelled);
      }
    case Unload(ref) =>
      if ref < |w.heap| && !w.heap[ref].disposed && w.heap[ref].phase == Visible {
        AbandonKeeps(w, ref, Cancelled);
      }
    case Use(ref) =>
      if ref < |w.heap| && w.heap[ref].phase == Visible {
        UseKeeps(w, ref);
      }
  }

  lemma {:induction false} RunKeeps(steps: seq<Step>)
    ensures Inv(Run(EMPTY, steps))
  {
    if steps != [] {
      RunKeeps(steps[..|steps| - 1]);
      StepKeeps(Run(EMPTY, steps[..|steps| - 1]), steps[|steps| - 1]);
    }
  }

  // ---------- What holds in every run ----------

  /**
   After any run a registered controller holds an object URL exactly when the memory has its
   entry, and the memory is within its limits.
   */
  lemma HoldsUrlIffBudgeted(steps: seq<Step>, id: Id)
    ensures var w := Run(EMPTY, steps);
            && WithinLimits(w.entries)
            && (Holds(w.entries, id)
                <==> id in w.registered && w.registered[id] < |w.heap| && w.heap[w.registered[id]].url.Some?)
  {
    hide Apply;
    RunKeeps(steps);
    var w := Run(EMPTY, steps);
    assert Holds(w.entries, id) <==> HoldsUrl(w.heap, w.registered, id);
  }

  /** No URL that has been created is lost, held twice, or revoked twice or while it is held. */
  lemma UrlsRevokedOnce(steps: seq<Step>, url: nat)
    ensures var w := Run(EMPTY, steps);
            HeldCount(w.heap, url) + w.revoked[url] == if url < w.created then 1 else 0
  {
    hide Apply;
    RunKeeps(steps);
  }

  /** A disposed controller holds nothing, whatever of its loads arrives later. */
  lemma DisposedHoldsNothing(steps: seq<Step>, ref: nat)
    requires ref < |Run(EMPTY, steps).heap| && Run(EMPTY, steps).heap[ref].disposed
    ensures Run(EMPTY, steps).heap[ref].url.None?
  {
    hide Apply;
    RunKeeps(steps);
    assert Good(Run(EMPTY, steps).heap[ref]);
  }

  // ---------- What a load comes to ----------

  /** Whether a download is an image that the memory admits. */
  predicate Fitting(arrival: Arrival) {
    arrival.Inspected? && arrival.bytes <= 25_165_824 && arrival.pixels <= 25_165_824
  }

  /** The phase that a load ends in when nothing interrupts it. */
  predicate EndsIn(arrival: Arrival, decode: Decode, phase: Phase) {
    if Fitting(arrival) then
      match decode
      case Fine => phase == Visible
      case Mismatch => phase == Ended
      case Broken => phase == Retryable
    else
      match arrival
      case Aborted => phase == Cancelled
      case Failed => phase == Retryable
      case _ => phase == Ended
  }

  lemma LoadStarts(w: World, ref: nat)
    requires Inv(w) && ref < |w.heap| && !w.heap[ref].disposed && Startable(w.heap[ref].phase)
    ensures var i, c, next := |w.heap[ref].flights|, w.heap[ref], Apply(w, Load(ref));
            && Inv(next) && |next.heap| == |w.heap| && next.entries == w.entries && next.created == w.created
            && next.tick == w.tick
            && next.heap[ref] == c.(phase := Downloading, generation := c.generation + 1,
                                    flights := c.flights + [Flight(c.generation + 1, false)])
            && next.heap[ref].url.None?
  {
    hide Inv;
    LoadKeeps(w, ref);
    DownloadHoldsNothing(Apply(w, Load(ref)), ref);
  }

  /** A current download that lands, up to the point where its result is judged. */
  lemma LastFlightLands(c: Controller, flights: seq<Flight>, last: Flight)
    requires c.flights == flights + [last]
    ensures SetFlight(c, |flights|, []) == c.(flights := flights)
  {
    assert flights + [] + [] == flights;
    assert c.flights[..|flights|] == flights && c.flights[|flights| + 1..] == [];
  }

  /** An image that fits is held, as the one used last, and waits for its decoding. */
  lemma FittingIsAdmitted(w: World, ref: nat, bytes: nat, pixels: nat)
    requires Inv(w) && ref < |w.heap| && Landed(w.heap[ref]) && w.heap[ref].phase == Downloading
    requires bytes <= 25_165_824 && pixels <= 25_165_824
    ensures var c, next := w.heap[ref], Admit(w, ref, w.heap[ref].generation, bytes, pixels);
            && ref < |next.heap| && next.entries != []
            && next.heap[ref] == c.(phase := Decoding, url := next.heap[ref].url,
                                    flights := c.flights + [Flight(c.generation, true)])
            && next.heap[ref].url.Some? && next.heap[ref].url.value + 1 == next.created
            && next.entries[|next.entries| - 1] == Entry(c.id, bytes, pixels, next.tick)
  {
    hide Room, Sound, Inv, HoldsUrl, Landed, MakeRoom, Linked, Release, Good, Budgeted;
    var c := w.heap[ref];
    IsLanded(c);
    DownloadHoldsNothing(w, ref);
    UnheldStays(w, c.id);
    MakeRoomKeeps(w, bytes, pixels);
  }

  /** A download with this result, of a load that has just been started. */
  lemma ArrivalIsJudged(w: World, ref: nat, flights: seq<Flight>, arrival: Arrival)
    requires Inv(w) && ref < |w.heap| && !w.heap[ref].disposed && w.heap[ref].phase == Downloading
    requires w.heap[ref].flights == flights + [Flight(w.heap[ref].generation, false)]
    ensures var i, c, next := |flights|, w.heap[ref], Apply(w, Arrive(ref, |flights|, arrival));
            && Inv(next) && ref < |next.heap| && !next.heap[ref].disposed
            && next.heap[ref].generation == c.generation && next.heap[ref].id == c.id
            && if Fitting(arrival) then
                 && next.heap[ref].phase == Decoding && next.heap[ref].url.Some?
                 && next.heap[ref].flights == flights + [Flight(c.generation, true)] && next.entries != []
                 && next.entries[|next.entries| - 1] == Entry(c.id, arrival.bytes, arrival.pixels, next.tick)
               else
                 && EndsIn(arrival, Fine, next.heap[ref].phase) && next.heap[ref].url.None?
                 && next.heap[ref].flights == flights
  {
    hide Inv, Landed, Admit, Good, FlightsFit;
    var c, i := w.heap[ref], |flights|;
    LastFlightLands(c, flights, c.flights[i]);
    var landed := w.(heap := w.heap[ref := SetFlight(c, i, [])]);
    LandKeeps(w, ref, i);
    ArrivedKeeps(w, ref, i, arrival);
    if Fitting(arrival) {
      FittingIsAdmitted(landed, ref, arrival.bytes, arrival.pixels);
    } else if arrival.Inspected? {
      TooBigIsEnded(landed, ref, arrival.bytes, arrival.pixels);
    }
  }

  lemma TooBigIsEnded(w: World, ref: nat, bytes: nat, pixels: nat)
    requires ref < |w.heap| && (bytes > 25_165_824 || pixels > 25_165_824)
    ensures Admit(w, ref, w.heap[ref].generation, bytes, pixels) == Terminate(w, ref, Ended)
  {
  }

  lemma DecodingIsJudged(w: World, ref: nat, flights: seq<Flight>, decode: Decode)
    requires Inv(w) && ref < |w.heap| && !w.heap[ref].disposed && w.heap[ref].phase == Decoding
    requires w.heap[ref].flights == flights + [Flight(w.heap[ref].generation, true)]
    ensures var c, next := w.heap[ref], Apply(w, Finish(ref, |flights|, decode));
            && Inv(next) && |next.heap| == |w.heap| && next.tick == w.tick && next.heap[ref].id == c.id
            && EndsIn(Inspected(0, 0), decode, next.heap[ref].phase)
            && (if decode.Fine? then next.heap[ref].url == c.url && next.entries == w.entries
                else next.heap[ref].url.None?)
  {
    hide Inv;
    LastFlightLands(w.heap[ref], flights, w.heap[ref].flights[|flights|]);
    DecodedKeeps(w, ref, |flights|, decode);
  }

  /**
   From every run, a load that nothing interrupts ends as its download and its decoding went:
   an image that fits and decodes well is shown, holds a URL, and is the preview used last;
   every other outcome has its own phase and holds nothing.
   */
  lemma LoadEndsAsJudged(steps: seq<Step>, ref: nat, arrival: Arrival, decode: Decode)
    requires var w := Run(EMPTY, steps); ref < |w.heap| && !w.heap[ref].disposed && Startable(w.heap[ref].phase)
    ensures var w := Run(EMPTY, steps);
            var i := |w.heap[ref].flights|;
            var next := Apply(Apply(Apply(w, Load(ref)), Arrive(ref, i, arrival)), Finish(ref, i, decode));
            && ref < |next.heap| && EndsIn(arrival, decode, next.heap[ref].phase)
            && (next.heap[ref].url.Some? <==> Fitting(arrival) && decode.Fine?)
            && (next.heap[ref].url.Some? ==>
                  && next.entries != []
                  && next.entries[|next.entries| - 1] == Entry(w.heap[ref].id, arrival.bytes, arrival.pixels, next.tick))
  {
    hide Inv, Arrived, Decoded, Run;
    RunKeeps(steps);
    var w := Run(EMPTY, steps);
    var flights := w.heap[ref].flights;
    LoadStarts(w, ref);
    var loading := Apply(w, Load(ref));
    ArrivalIsJudged(loading, ref, flights, arrival);
    if Fitting(arrival) {
      DecodingIsJudged(Apply(loading, Arrive(ref, |flights|, arrival)), ref, flights, decode);
    }
  }

  /** A preview that is used is afterwards the one used last. */
  lemma UseMakesLatest(steps: seq<Step>, ref: nat)
    requires var w := Run(EMPTY, steps); ref < |w.heap| && !w.heap[ref].disposed && w.heap[ref].phase == Visible
    ensures var w, next := Run(EMPTY, steps), Apply(Run(EMPTY, steps), Use(ref));
            && IsLatest(next.entries, w.heap[ref].id) && |next.entries| == |w.entries|
            && forall i :: 0 <= i < |w.entries| ==>
                 && next.entries[i].id == w.entries[i].id && next.entries[i].bytes == w.entries[i].bytes
                 && next.entries[i].pixels == w.entries[i].pixels
                 && (w.entries[i].id != w.heap[ref].id ==> next.entries[i] == w.entries[i])
  {
    hide Run, Touched, Sound, Accounted, IsLatest, FlightsFit, Bytes, Pixels;
    RunKeeps(steps);
    var w := Run(EMPTY, steps);
    var id := w.heap[ref].id;
    assert Good(w.heap[ref]);
    assert HoldsUrl(w.heap, w.registered, id);
    assert Holds(w.entries, id);
    TouchedIsLatest(w.entries, id, w.tick);
    TouchedSameSize(w.entries, id, w.tick + 1);
  }

  /** Cancelling a load and unloading an image give up what is held, and it can be loaded again. */
  lemma StoppingReleases(steps: seq<Step>, ref: nat, step: Step)
    requires var w := Run(EMPTY, steps); ref < |w.heap| && !w.heap[ref].disposed
    requires var phase := Run(EMPTY, steps).heap[ref].phase;
             (step == Cancel(ref) && (phase == Downloading || phase == Decoding)) || (step == Unload(ref) && phase == Visible)
    ensures var w, next := Run(EMPTY, steps), Apply(Run(EMPTY, steps), step);
            && ref < |next.heap| && next.heap[ref].phase == Cancelled && next.heap[ref].url.None?
            && !next.heap[ref].disposed && next.heap[ref].generation > w.heap[ref].generation
            && !Holds(next.entries, w.heap[ref].id)
  {
    hide Run;
    var w := Run(EMPTY, steps);
    WithoutIsPart(w.entries, w.heap[ref].id);
  }
}
