/**
 The files of a room: the room's index, each peer's list, and the subscribers streaming a
 file, while batches are shared, withdrawn and cleaned up by concurrent threads.
 */
module FileIndex {
  const FILES_PER_PEER: nat := 32
  const SUBSCRIBERS_PER_FILE: nat := 32

  // ---------- State ----------

  datatype Peer = Peer(inRoom: bool, files: seq<nat>)

  /** `registered` are the subscribers a file knows; `valid` those still able to stream it. */
  datatype File = File(available: bool, registered: set<nat>, valid: set<nat>, nextSubscriber: nat)

  /** The thread holding the mutation lock, between its critical sections. */
  datatype Mutation =
    | Unlocked
    | Sharing(peer: nat, count: nat)
    | Listed(ids: set<nat>)
    | Taken(ids: set<nat>, job: nat)

  /** A withdrawal after the lock: files still to be marked, subscribers still to be told. */
  datatype Job = Job(files: set<nat>, unmarked: set<nat>, doomed: set<(nat, nat)>, returned: bool)

  datatype Room = Room(
    peers: map<nat, Peer>,
    index: set<nat>,
    nextFile: nat,
    mutation: Mutation,
    files: map<nat, File>,
    jobs: map<nat, Job>)

  const EMPTY := Room(map[], {}, 1, Unlocked, map[], map[])

  /** `count` consecutive ids starting at `from`. */
  function NewIds(from: nat, count: nat): (ids: seq<nat>)
    ensures |ids| == count && forall i :: 0 <= i < count ==> ids[i] == from + i
  {
    seq(count, i => from + i)
  }

  function IdSet(ids: seq<nat>): (result: set<nat>)
    ensures forall id :: id in result <==> id in ids
  {
    set id | id in ids
  }

  /** Room for `additional` more among at most `maximum`. */
  predicate HasCapacityFor(current: nat, additional: nat, maximum: nat) {
    maximum != 0 && current <= maximum && additional <= maximum - current
  }

  // ---------- Steps ----------

  datatype Step =
    | AddPeer(peer: nat)
    | RemovePeer(peer: nat)
    | BeginShare(peer: nat, count: nat)
    | ListFiles
    | IndexFiles
    | TakeFiles(peer: nat, job: nat)
    | EraseFiles
    | MarkUnavailable(job: nat, file: nat)
    | InvalidateSubscriber(job: nat, file: nat, subscriber: nat)
    | Return(job: nat)
    | Subscribe(file: nat)
    | DropSubscriber(file: nat, subscriber: nat)

  /**
   A share looks its host up and checks its capacity inside the lock.  A subscription may
   come from a lookup made long before: any file that ever existed can be subscribed to.
   */
  predicate Enabled(r: Room, step: Step) {
    match step
    case AddPeer(p) => p !in r.peers
    case RemovePeer(p) => p in r.peers && r.peers[p].inRoom
    case BeginShare(p, count) => r.mutation.Unlocked? && p in r.peers && r.peers[p].inRoom
        && HasCapacityFor(|r.peers[p].files|, count, FILES_PER_PEER)
    case ListFiles => r.mutation.Sharing? && r.mutation.peer in r.peers
    case IndexFiles => r.mutation.Listed?
    case TakeFiles(p, job) => r.mutation.Unlocked? && p in r.peers && job !in r.jobs
    case EraseFiles => r.mutation.Taken?
    case MarkUnavailable(job, file) => job in r.jobs && file in r.jobs[job].unmarked && file in r.files
    case InvalidateSubscriber(job, file, subscriber) =>
        job in r.jobs && (file, subscriber) in r.jobs[job].doomed && file in r.files
    case Return(job) => job in r.jobs && r.jobs[job].unmarked == {} && r.jobs[job].doomed == {}
    case Subscribe(file) => file in r.files
    case DropSubscriber(file, subscriber) => file in r.files
  }

  function Apply(r: Room, step: Step): Room
    requires Enabled(r, step)
  {
    match step
    case AddPeer(p) => r.(peers := r.peers[p := Peer(true, [])])
    case RemovePeer(p) => r.(peers := r.peers[p := r.peers[p].(inRoom := false)])
    case BeginShare(p, count) => r.(mutation := Sharing(p, count))
    case ListFiles =>
      var p, ids := r.mutation.peer, NewIds(r.nextFile, r.mutation.count);
      var created := map id | id in IdSet(ids) :: File(true, {}, {}, 1);
      r.(nextFile := r.nextFile + r.mutation.count,
         files := r.files + created,
         peers := r.peers[p := r.peers[p].(files := r.peers[p].files + ids)],
         mutation := Listed(IdSet(ids)))
    case IndexFiles => r.(index := r.index + r.mutation.ids, mutation := Unlocked)
    case TakeFiles(p, job) =>
      r.(peers := r.peers[p := r.peers[p].(files := [])],
         mutation := Taken(IdSet(r.peers[p].files), job))
    case EraseFiles =>
      var ids := r.mutation.ids;
      r.(index := r.index - ids,
         jobs := r.jobs[r.mutation.job := Job(ids, ids, {}, false)],
         mutation := Unlocked)
    case MarkUnavailable(job, file) =>
      var j, f := r.jobs[job], r.files[file];
      var doomed := set s | s in f.registered :: (file, s);
      r.(files := r.files[file := f.(available := false, registered := {})],
         jobs := r.jobs[job := j.(unmarked := j.unmarked - {file}, doomed := j.doomed + doomed)])
    case InvalidateSubscriber(job, file, subscriber) =>
      var j, f := r.jobs[job], r.files[file];
      r.(files := r.files[file := f.(valid := f.valid - {subscriber})],
         jobs := r.jobs[job := j.(doomed := j.doomed - {(file, subscriber)})])
    case Return(job) => r.(jobs := r.jobs[job := r.jobs[job].(returned := true)])
    case Subscribe(file) =>
      var f := r.files[file];
      if !f.available || |f.registered| >= SUBSCRIBERS_PER_FILE then r
      else r.(files := r.files[file := f.(registered := f.registered + {f.nextSubscriber},
                                          valid := f.valid + {f.nextSubscriber},
                                          nextSubscriber := f.nextSubscriber + 1)])
    case DropSubscriber(file, subscriber) =>
      var f := r.files[file];
      r.(files := r.files[file := f.(registered := f.registered - {subscriber}, valid := f.valid - {subscriber})])
  }

  predicate Runs(r: Room, steps: seq<Step>)
    decreases |steps|
  {
    steps == [] || (Enabled(r, steps[0]) && Runs(Apply(r, steps[0]), steps[1..]))
  }

  function Run(r: Room, steps: seq<Step>): Room
    requires Runs(r, steps)
    decreases |steps|
  {
    if steps == [] then r else Run(Apply(r, steps[0]), steps[1..])
  }

  // ---------- The lists and the index ----------

  ghost predicate Owns(peers: map<nat, Peer>, p: nat, file: nat) {
    p in peers && file in peers[p].files
  }

  ghost predicate IsListed(peers: map<nat, Peer>, file: nat) {
    exists p :: Owns(peers, p, file)
  }

  ghost predicate ListInv(r: Room) {
    && (forall p :: p in r.peers ==> |r.peers[p].files| <= FILES_PER_PEER)
    && (forall p, i, j :: p in r.peers && 0 <= i < j < |r.peers[p].files| ==> r.peers[p].files[i] != r.peers[p].files[j])
    && (forall p, q, file :: Owns(r.peers, p, file) && Owns(r.peers, q, file) ==> p == q)
    && (forall p: nat, file: nat :: Owns(r.peers, p, file) ==> file < r.nextFile)
    && (r.mutation.Sharing? ==>
          && r.mutation.peer in r.peers
          && HasCapacityFor(|r.peers[r.mutation.peer].files|, r.mutation.count, FILES_PER_PEER))
  }

  /** Index and lists differ only by the batch a thread is in the middle of. */
  ghost predicate IndexInv(r: Room) {
    && (forall file :: file in r.index ==> file < r.nextFile)
    && match r.mutation
       case Listed(ids) =>
         (forall file :: file in ids ==> IsListed(r.peers, file) && file !in r.index)
         && (forall file :: IsListed(r.peers, file) <==> file in r.index || file in ids)
       case Taken(ids, job) =>
         job !in r.jobs
         && (forall file :: file in ids ==> file < r.nextFile && !IsListed(r.peers, file))
         && (forall file :: file in r.index <==> IsListed(r.peers, file) || file in ids)
       case _ => forall file :: file in r.index <==> IsListed(r.peers, file)
  }

  // ---------- Withdrawn files ----------

  /** A job's files are out of the index for good, and its marked files can only wind down. */
  ghost predicate JobInv(r: Room, job: Job) {
    && job.unmarked <= job.files
    && (forall file :: file in job.files ==>
          && file < r.nextFile && file in r.files
          && file !in r.index && !IsListed(r.peers, file)
          && (r.mutation.Taken? ==> file !in r.mutation.ids))
    && (forall file :: file in job.unmarked ==> r.files[file].available)
    && (forall file :: file in job.files - job.unmarked ==>
          !r.files[file].available
          && (forall s :: s in r.files[file].valid ==> (file, s) in job.doomed))
    && (forall d :: d in job.doomed ==> d.0 in job.files)
    && (job.returned ==> job.unmarked == {} && job.doomed == {})
  }

  ghost predicate FileInv(r: Room) {
    && (forall file :: file in r.files ==>
          && file < r.nextFile
          && (r.files[file].available ==> r.files[file].valid <= r.files[file].registered))
    && (forall p, file :: Owns(r.peers, p, file) ==> file in r.files && r.files[file].available)
    && (r.mutation.Taken? ==> forall file :: file in r.mutation.ids ==> file in r.files && r.files[file].available)
  }

  /** A file is withdrawn by one job only. */
  ghost predicate DisjointJobs(r: Room) {
    forall j, k, file :: j in r.jobs && k in r.jobs && file in r.jobs[j].files && file in r.jobs[k].files ==> j == k
  }

  ghost predicate Inv(r: Room) {
    && ListInv(r) && IndexInv(r) && FileInv(r) && DisjointJobs(r)
    && (forall j :: j in r.jobs ==> JobInv(r, r.jobs[j]))
  }

  // ---------- Steps on the lists ----------

  lemma ListedOwners(peers: map<nat, Peer>, p: nat, files: seq<nat>)
    requires p in peers
    ensures var next := peers[p := peers[p].(files := files)];
      && (forall q, file :: Owns(next, q, file) <==> if q == p then file in files else Owns(peers, q, file))
  {
  }

  lemma OwnersGrow(peers: map<nat, Peer>, p: nat, ids: seq<nat>)
    requires p in peers
    ensures var next := peers[p := peers[p].(files := peers[p].files + ids)];
      && (forall q, file :: Owns(next, q, file) <==> Owns(peers, q, file) || (q == p && file in ids))
      && (forall file :: IsListed(next, file) <==> IsListed(peers, file) || file in ids)
  {
    var next := peers[p := peers[p].(files := peers[p].files + ids)];
    forall file ensures IsListed(next, file) <==> IsListed(peers, file) || file in ids {
      if IsListed(peers, file) {
        var q :| Owns(peers, q, file);
        assert Owns(next, q, file);
      }
      if file in ids {
        assert Owns(next, p, file);
      }
      if IsListed(next, file) {
        var q :| Owns(next, q, file);
        assert Owns(peers, q, file) || file in ids;
      }
    }
  }

  /** The new files are numbered from the next free number on, and the sharing peer owns them. */
  lemma ListOwners(r: Room)
    requires Enabled(r, ListFiles)
    ensures var t, ids := Apply(r, ListFiles), IdSet(NewIds(r.nextFile, r.mutation.count));
      && (forall q, file :: Owns(t.peers, q, file) <==> Owns(r.peers, q, file) || (q == r.mutation.peer && file in ids))
      && (forall file :: IsListed(t.peers, file) <==> IsListed(r.peers, file) || file in ids)
  {
    hide Owns, IsListed;
    OwnersGrow(r.peers, r.mutation.peer, NewIds(r.nextFile, r.mutation.count));
  }

  lemma ListMoves(r: Room)
    requires Enabled(r, ListFiles)
    ensures var t, ids := Apply(r, ListFiles), IdSet(NewIds(r.nextFile, r.mutation.count));
      && t.nextFile == r.nextFile + r.mutation.count && t.index == r.index && t.mutation == Listed(ids) && t.jobs == r.jobs
      && (forall file :: file in ids <==> r.nextFile <= file < t.nextFile)
      && (forall file :: file in t.files <==> file in r.files || file in ids)
      && (forall file :: file in t.files ==> t.files[file] == if file in ids then File(true, {}, {}, 1) else r.files[file])
  {
    hide HasCapacityFor;
    var ids := NewIds(r.nextFile, r.mutation.count);
    forall file | r.nextFile <= file < r.nextFile + r.mutation.count ensures file in ids {
      assert ids[file - r.nextFile] == file;
    }
  }

  lemma ListLengthens(r: Room)
    requires ListInv(r) && Enabled(r, ListFiles)
    ensures var t := Apply(r, ListFiles);
      && (forall q :: q in t.peers ==> |t.peers[q].files| <= FILES_PER_PEER)
      && (forall q, i, k :: q in t.peers && 0 <= i < k < |t.peers[q].files| ==> t.peers[q].files[i] != t.peers[q].files[k])
  {
    hide IsListed;
    NewIdsDistinct(r.peers[r.mutation.peer].files, r.nextFile, r.mutation.count, r.peers, r.mutation.peer);
  }

  lemma ListKeepsOwners(r: Room)
    requires ListInv(r) && Enabled(r, ListFiles)
    ensures var t := Apply(r, ListFiles);
      && (forall p, q, file :: Owns(t.peers, p, file) && Owns(t.peers, q, file) ==> p == q)
      && (forall p: nat, file: nat :: Owns(t.peers, p, file) ==> file < t.nextFile)
  {
    ListOwners(r);
    ListMoves(r);
    hide Owns, IsListed, Apply, Enabled, HasCapacityFor;
  }

  lemma ListKeepsLists(r: Room)
    requires ListInv(r) && Enabled(r, ListFiles)
    ensures ListInv(Apply(r, ListFiles))
  {
    ListMoves(r);
    ListLengthens(r);
    ListKeepsOwners(r);
  }

  lemma ListKeepsIndex(r: Room)
    requires IndexInv(r) && Enabled(r, ListFiles) && ListInv(r)
    ensures IndexInv(Apply(r, ListFiles))
  {
    ListOwners(r);
    ListMoves(r);
    hide ListInv, Owns, IsListed, HasCapacityFor, Apply;
  }

  lemma ListKeepsFiles(r: Room)
    requires FileInv(r) && Enabled(r, ListFiles) && ListInv(r)
    ensures FileInv(Apply(r, ListFiles))
  {
    ListOwners(r);
    ListMoves(r);
    hide ListInv, Owns, IsListed, HasCapacityFor, Apply;
  }

  lemma ListFilesKeeps(r: Room)
    requires Inv(r) && Enabled(r, ListFiles)
    ensures Inv(Apply(r, ListFiles))
  {
    hide JobInv, Owns, IsListed, Apply, Enabled, ListInv, FileInv, HasCapacityFor;
    ListOwners(r);
    ListMoves(r);
    ListKeepsLists(r);
    ListKeepsIndex(r);
    ListKeepsFiles(r);
    var t := Apply(r, ListFiles);
    assert DisjointJobs(t);
    forall j | j in t.jobs ensures JobInv(t, t.jobs[j]) {
      ListKeepsJob(r, t, r.jobs[j], t.mutation.ids);
    }
  }

  /** New files are in no job. */
  lemma ListKeepsJob(r: Room, t: Room, job: Job, ids: set<nat>)
    requires JobInv(r, job) && t.nextFile >= r.nextFile && t.index == r.index && !t.mutation.Taken?
    requires forall file :: file in ids ==> file >= r.nextFile
    requires forall file :: IsListed(t.peers, file) <==> IsListed(r.peers, file) || file in ids
    requires forall file :: file in r.files && file !in ids ==> file in t.files && t.files[file] == r.files[file]
    ensures JobInv(t, job)
  {
    hide IsListed;
  }

  lemma NewIdsDistinct(files: seq<nat>, from: nat, count: nat, peers: map<nat, Peer>, p: nat)
    requires p in peers && peers[p].files == files
    requires forall file: nat :: Owns(peers, p, file) ==> file < from
    requires forall i, j :: 0 <= i < j < |files| ==> files[i] != files[j]
    ensures var next := files + NewIds(from, count);
      forall i, j :: 0 <= i < j < |next| ==> next[i] != next[j]
  {
    forall i | 0 <= i < |files| ensures files[i] < from {
      assert Owns(peers, p, files[i]);
    }
  }

  lemma TakeFilesKeeps(r: Room, p: nat, job: nat)
    requires Inv(r) && Enabled(r, TakeFiles(p, job))
    ensures Inv(Apply(r, TakeFiles(p, job)))
  {
    var t := Apply(r, TakeFiles(p, job));
    ListedOwners(r.peers, p, []);
    forall file ensures IsListed(r.peers, file) <==> IsListed(t.peers, file) || file in r.peers[p].files {
      if IsListed(r.peers, file) {
        var q :| Owns(r.peers, q, file);
        assert q != p ==> Owns(t.peers, q, file);
      }
      if file in r.peers[p].files {
        assert Owns(r.peers, p, file);
      }
      if IsListed(t.peers, file) {
        var q :| Owns(t.peers, q, file);
        assert Owns(r.peers, q, file);
      }
    }
    forall file | file in r.peers[p].files
      ensures file < r.nextFile && !IsListed(t.peers, file) && file in r.files && IsListed(r.peers, file)
    {
      assert Owns(r.peers, p, file);
    }
    forall j | j in t.jobs ensures JobInv(t, t.jobs[j]) {
      assert JobInv(r, r.jobs[j]);
    }
  }

  lemma EraseIndexes(r: Room)
    requires Enabled(r, EraseFiles) && ListInv(r) && IndexInv(r) && FileInv(r)
    ensures var t := Apply(r, EraseFiles); ListInv(t) && IndexInv(t) && FileInv(t)
    ensures r.mutation.job !in r.jobs
  {
    hide IsListed;
  }

  lemma EraseIsDisjoint(r: Room)
    requires Enabled(r, EraseFiles) && DisjointJobs(r) && forall j :: j in r.jobs ==> JobInv(r, r.jobs[j])
    ensures DisjointJobs(Apply(r, EraseFiles))
  {
    hide IsListed;
    forall j | j in r.jobs ensures r.jobs[j].files !! r.mutation.ids {
      assert JobInv(r, r.jobs[j]);
    }
  }

  lemma EraseStarts(r: Room)
    requires Enabled(r, EraseFiles) && IndexInv(r) && FileInv(r)
    ensures var t := Apply(r, EraseFiles); r.mutation.job in t.jobs && JobInv(t, t.jobs[r.mutation.job])
  {
    hide IsListed;
  }

  lemma EraseKeepsJob(r: Room, job: Job)
    requires Enabled(r, EraseFiles) && JobInv(r, job)
    ensures JobInv(Apply(r, EraseFiles), job)
  {
    hide IsListed;
  }

  lemma EraseFilesKeeps(r: Room)
    requires Inv(r) && Enabled(r, EraseFiles)
    ensures Inv(Apply(r, EraseFiles))
  {
    hide ListInv, IndexInv, FileInv, JobInv, DisjointJobs;
    var t := Apply(r, EraseFiles);
    var job := r.mutation.job;
    EraseIndexes(r);
    EraseIsDisjoint(r);
    forall j | j in t.jobs ensures JobInv(t, t.jobs[j]) {
      if j == job {
        EraseStarts(r);
      } else {
        EraseKeepsJob(r, r.jobs[j]);
      }
    }
  }

  lemma PeerKeeps(r: Room, step: Step)
    requires Inv(r) && Enabled(r, step) && (step.AddPeer? || step.RemovePeer?)
    ensures Inv(Apply(r, step))
  {
    var t := Apply(r, step);
    forall p, file ensures Owns(t.peers, p, file) <==> Owns(r.peers, p, file) {
    }
    forall file ensures IsListed(t.peers, file) <==> IsListed(r.peers, file) {
      if IsListed(r.peers, file) {
        var q :| Owns(r.peers, q, file);
        assert Owns(t.peers, q, file);
      }
    }
    forall j | j in t.jobs ensures JobInv(t, t.jobs[j]) {
      assert JobInv(r, r.jobs[j]);
    }
  }

  lemma LockKeeps(r: Room, step: Step)
    requires Inv(r) && Enabled(r, step) && (step.BeginShare? || step.IndexFiles?)
    ensures Inv(Apply(r, step))
  {
    var t := Apply(r, step);
    forall j | j in t.jobs ensures JobInv(t, t.jobs[j]) {
      assert JobInv(r, r.jobs[j]);
    }
  }

  // ---------- Steps on one file's subscribers ----------

  /** Lists and index stay, and of the files at most one changes. */
  ghost predicate OnlyFile(r: Room, t: Room, file: nat) {
    && t.peers == r.peers && t.index == r.index && t.nextFile == r.nextFile && t.mutation == r.mutation
    && (forall g :: g in t.files <==> g in r.files)
    && (forall g :: g in r.files && g != file ==> t.files[g] == r.files[g])
    && (forall j :: j in t.jobs <==> j in r.jobs)
  }

  lemma ListsStay(r: Room, t: Room, file: nat)
    requires OnlyFile(r, t, file) && ListInv(r) && IndexInv(r)
    ensures ListInv(t) && IndexInv(t)
  {
    hide Owns, IsListed;
  }

  lemma FilesStay(r: Room, t: Room, file: nat)
    requires OnlyFile(r, t, file) && FileInv(r)
    requires file in r.files ==>
      && (t.files[file].available ==> t.files[file].valid <= t.files[file].registered)
      && (t.files[file].available == r.files[file].available || (file !in r.index && !IsListed(r.peers, file)))
    requires r.mutation.Taken? && file in r.mutation.ids ==> t.files[file].available
    ensures FileInv(t)
  {
    forall p, g | Owns(t.peers, p, g) ensures g in t.files && t.files[g].available {
      assert Owns(r.peers, p, g) && IsListed(r.peers, g);
    }
  }

  lemma JobStays(r: Room, t: Room, file: nat, job: Job)
    requires OnlyFile(r, t, file) && JobInv(r, job)
    requires file in job.files ==>
      && t.files[file].available == r.files[file].available
      && (!t.files[file].available ==> t.files[file].valid <= r.files[file].valid)
    ensures JobInv(t, job)
  {
    hide IsListed;
  }

  lemma JobsStayDisjoint(r: Room, t: Room)
    requires DisjointJobs(r)
    requires forall j :: j in t.jobs ==> j in r.jobs && t.jobs[j].files == r.jobs[j].files
    ensures DisjointJobs(t)
  {
    forall j, k, file | j in t.jobs && k in t.jobs && file in t.jobs[j].files && file in t.jobs[k].files ensures j == k {
      assert file in r.jobs[j].files && file in r.jobs[k].files;
    }
  }

  lemma MarkKeepsJob(r: Room, job: nat, file: nat)
    requires Enabled(r, MarkUnavailable(job, file)) && JobInv(r, r.jobs[job]) && FileInv(r)
    ensures var t := Apply(r, MarkUnavailable(job, file)); job in t.jobs && JobInv(t, t.jobs[job])
  {
    hide IsListed;
    var t := Apply(r, MarkUnavailable(job, file));
    var j, next := r.jobs[job], t.jobs[job];
    forall g | g in next.files - next.unmarked
      ensures !t.files[g].available && forall s :: s in t.files[g].valid ==> (g, s) in next.doomed
    {
      assert g != file ==> g in j.files - j.unmarked && t.files[g] == r.files[g];
    }
  }

  lemma MarkKeeps(r: Room, job: nat, file: nat)
    requires Inv(r) && Enabled(r, MarkUnavailable(job, file))
    ensures Inv(Apply(r, MarkUnavailable(job, file)))
  {
    hide ListInv, IndexInv, FileInv, JobInv, Owns, IsListed, Apply;
    var t := Apply(r, MarkUnavailable(job, file));
    FileStepJobs(r, MarkUnavailable(job, file));
    MarkMakesUnavailable(r, job, file);
    ListsStay(r, t, file);
    FilesStay(r, t, file);
    MarkKeepsJob(r, job, file);
    forall j | j in t.jobs ensures JobInv(t, t.jobs[j]) {
      if j != job {
        assert file !in r.jobs[j].files;
        JobStays(r, t, file, r.jobs[j]);
      }
    }
  }

  lemma MarkMakesUnavailable(r: Room, job: nat, file: nat)
    requires Enabled(r, MarkUnavailable(job, file)) && JobInv(r, r.jobs[job])
    ensures file in r.jobs[job].files && file !in r.index && !IsListed(r.peers, file)
    ensures r.mutation.Taken? ==> file !in r.mutation.ids
    ensures var t := Apply(r, MarkUnavailable(job, file)); file in t.files && !t.files[file].available
  {
  }

  lemma FileStepJobs(r: Room, step: Step)
    requires Enabled(r, step) && DisjointJobs(r)
    requires step.MarkUnavailable? || step.InvalidateSubscriber? || step.Return? || step.Subscribe? || step.DropSubscriber?
    ensures DisjointJobs(Apply(r, step))
    ensures OnlyFile(r, Apply(r, step), if step.Return? then 0 else step.file)
    ensures forall j :: j in r.jobs && (step.Subscribe? || step.DropSubscriber? || j != step.job) ==>
              Apply(r, step).jobs[j] == r.jobs[j]
  {
    hide DisjointJobs;
    JobsStayDisjoint(r, Apply(r, step));
  }

  lemma InvalidateKeepsJob(r: Room, job: nat, file: nat, subscriber: nat)
    requires Enabled(r, InvalidateSubscriber(job, file, subscriber)) && JobInv(r, r.jobs[job])
    ensures var t := Apply(r, InvalidateSubscriber(job, file, subscriber)); job in t.jobs && JobInv(t, t.jobs[job])
  {
    hide IsListed;
    var t := Apply(r, InvalidateSubscriber(job, file, subscriber));
    var j, next := r.jobs[job], t.jobs[job];
    forall g, s | g in next.files - next.unmarked && s in t.files[g].valid ensures (g, s) in next.doomed {
      assert s in r.files[g].valid && (g, s) in j.doomed;
    }
  }

  lemma InvalidateKeeps(r: Room, job: nat, file: nat, subscriber: nat)
    requires Inv(r) && Enabled(r, InvalidateSubscriber(job, file, subscriber))
    ensures Inv(Apply(r, InvalidateSubscriber(job, file, subscriber)))
  {
    hide ListInv, IndexInv, FileInv, JobInv, Owns, IsListed, DisjointJobs, Apply;
    var t := Apply(r, InvalidateSubscriber(job, file, subscriber));
    FileStepJobs(r, InvalidateSubscriber(job, file, subscriber));
    InvalidateLess(r, job, file, subscriber);
    ListsStay(r, t, file);
    FilesStay(r, t, file);
    InvalidateKeepsJob(r, job, file, subscriber);
    forall j | j in t.jobs ensures JobInv(t, t.jobs[j]) {
      if j != job {
        JobStays(r, t, file, r.jobs[j]);
      }
    }
  }

  lemma InvalidateLess(r: Room, job: nat, file: nat, subscriber: nat)
    requires Enabled(r, InvalidateSubscriber(job, file, subscriber)) && FileInv(r)
    ensures var t := Apply(r, InvalidateSubscriber(job, file, subscriber));
      && file in t.files && t.files[file].available == r.files[file].available
      && t.files[file].valid <= r.files[file].valid
      && (t.files[file].available ==> t.files[file].valid <= t.files[file].registered)
      && (r.mutation.Taken? && file in r.mutation.ids ==> t.files[file].available)
  {
  }

  lemma ReturnKeeps(r: Room, job: nat)
    requires Inv(r) && Enabled(r, Return(job))
    ensures Inv(Apply(r, Return(job)))
  {
    hide ListInv, IndexInv, FileInv, JobInv, Owns, IsListed, DisjointJobs, Apply;
    var t := Apply(r, Return(job));
    FileStepJobs(r, Return(job));
    ReturnMarks(r, job);
    ListsStay(r, t, 0);
    SameFiles(r, t);
    forall j | j in t.jobs ensures JobInv(t, t.jobs[j]) {
      JobStays(r, t, 0, r.jobs[j]);
      ReturnedJob(t, r.jobs[j]);
    }
  }

  lemma ReturnMarks(r: Room, job: nat)
    requires Enabled(r, Return(job))
    ensures var t := Apply(r, Return(job));
      t.files == r.files && job in t.jobs && t.jobs[job] == r.jobs[job].(returned := true)
  {
  }

  lemma SameFiles(r: Room, t: Room)
    requires t.peers == r.peers && t.nextFile == r.nextFile && t.mutation == r.mutation && t.files == r.files && FileInv(r)
    ensures FileInv(t)
  {
    hide Owns;
  }

  lemma ReturnedJob(r: Room, job: Job)
    requires JobInv(r, job)
    ensures job.unmarked == {} && job.doomed == {} ==> JobInv(r, job.(returned := true))
  {
    hide IsListed;
  }

  /** Subscribing needs an available file, so it cannot reach a withdrawn one. */
  lemma SubscriberKeeps(r: Room, step: Step)
    requires Inv(r) && Enabled(r, step) && (step.Subscribe? || step.DropSubscriber?)
    ensures Inv(Apply(r, step))
  {
    var t := Apply(r, step);
    FileStepJobs(r, step);
    assert r.files[step.file].available ==> r.files[step.file].valid <= r.files[step.file].registered;
    hide ListInv, IndexInv, FileInv, JobInv, Owns, IsListed, DisjointJobs;
    ListsStay(r, t, step.file);
    FilesStay(r, t, step.file);
    forall j | j in t.jobs ensures JobInv(t, t.jobs[j]) {
      JobStays(r, t, step.file, r.jobs[j]);
    }
  }

  lemma StepKeepsInv(r: Room, step: Step)
    requires Inv(r) && Enabled(r, step)
    ensures Inv(Apply(r, step))
  {
    match step {
      case AddPeer(_) => PeerKeeps(r, step);
      case RemovePeer(_) => PeerKeeps(r, step);
      case BeginShare(_, _) => LockKeeps(r, step);
      case IndexFiles => LockKeeps(r, step);
      case ListFiles => ListFilesKeeps(r);
      case TakeFiles(p, job) => TakeFilesKeeps(r, p, job);
      case EraseFiles => EraseFilesKeeps(r);
      case MarkUnavailable(job, file) => MarkKeeps(r, job, file);
      case InvalidateSubscriber(job, file, subscriber) => InvalidateKeeps(r, job, file, subscriber);
      case Return(job) => ReturnKeeps(r, job);
      case Subscribe(_) => SubscriberKeeps(r, step);
      case DropSubscriber(_, _) => SubscriberKeeps(r, step);
    }
  }

  lemma EmptyInv()
    ensures Inv(EMPTY)
  {
  }

  lemma {:induction false} RunKeepsInv(r: Room, steps: seq<Step>)
    requires Inv(r) && Runs(r, steps)
    ensures Inv(Run(r, steps))
    decreases |steps|
  {
    if steps != [] {
      StepKeepsInv(r, steps[0]);
      RunKeepsInv(Apply(r, steps[0]), steps[1..]);
    }
  }

  // ---------- The results ----------

  /**
   In every run, no peer lists more than 32 files, no id is listed twice, and whenever no
   thread is inside a share or a withdrawal the index is exactly the union of the peers'
   lists, those of removed peers that still await their cleanup included.
   */
  lemma IndexAgreesWithLists(steps: seq<Step>)
    requires Runs(EMPTY, steps)
    ensures var r := Run(EMPTY, steps);
      && (forall p :: p in r.peers ==> |r.peers[p].files| <= 32)
      && (forall p, i, j :: p in r.peers && 0 <= i < j < |r.peers[p].files| ==> r.peers[p].files[i] != r.peers[p].files[j])
      && (forall p, q, file :: Owns(r.peers, p, file) && Owns(r.peers, q, file) ==> p == q)
      && (r.mutation.Unlocked? ==> forall file :: file in r.index <==> IsListed(r.peers, file))
  {
    EmptyInv();
    RunKeepsInv(EMPTY, steps);
  }

  /**
   In every run, once a withdrawal or a removal has returned, none of its files is in the
   index or on any list, none can be subscribed to, and no subscriber is still valid,
   however long before a reader had looked the file up.
   */
  lemma WithdrawnFilesAreGone(steps: seq<Step>, job: nat, file: nat)
    requires Runs(EMPTY, steps)
    requires var r := Run(EMPTY, steps); job in r.jobs && r.jobs[job].returned && file in r.jobs[job].files
    ensures var r := Run(EMPTY, steps);
      && file !in r.index && !IsListed(r.peers, file)
      && file in r.files && !r.files[file].available && r.files[file].valid == {}
      && Apply(r, Subscribe(file)) == r
  {
    hide ListInv, IndexInv, FileInv, DisjointJobs, Runs, Run;
    EmptyInv();
    RunKeepsInv(EMPTY, steps);
    var r := Run(EMPTY, steps);
    assert JobInv(r, r.jobs[job]);
    assert file in r.jobs[job].files - r.jobs[job].unmarked;
  }

  // ---------- Files are served ----------

  lemma {:induction false} RunConcat(r: Room, a: seq<Step>, b: seq<Step>)
    requires Runs(r, a) && Runs(Run(r, a), b)
    ensures Runs(r, a + b) && Run(r, a + b) == Run(Run(r, a), b)
    decreases |a|
  {
    hide Enabled, Apply;
    if a == [] {
      assert a + b == b;
    } else {
      assert (a + b)[1..] == a[1..] + b;
      RunConcat(Apply(r, a[0]), a[1..], b);
    }
  }

  lemma OneStep(r: Room, step: Step)
    requires Enabled(r, step)
    ensures Runs(r, [step]) && Run(r, [step]) == Apply(r, step)
  {
    hide Enabled, Apply;
    assert [step][1..] == [];
  }

  /** The files a share adds: new ones, at the end of the peer's list, in the index and available. */
  ghost predicate Shared(before: Room, after: Room, peer: nat, count: nat) {
    && peer in before.peers && peer in after.peers
    && |after.peers[peer].files| == |before.peers[peer].files| + count
    && after.peers[peer].files[..|before.peers[peer].files|] == before.peers[peer].files
    && forall i :: |before.peers[peer].files| <= i < |after.peers[peer].files| ==>
         var file := after.peers[peer].files[i];
         file !in before.files && file in after.index && file in after.files && after.files[file] == File(true, {}, {}, 1)
  }

  /**
   In every run, when no thread holds the lock, a peer in the room can share files exactly as
   long as it then has no more than 32, and then they are on its list and in the index.
   */
  lemma FilesCanBeShared(steps: seq<Step>, peer: nat, count: nat) returns (more: seq<Step>)
    requires Runs(EMPTY, steps)
    requires var r := Run(EMPTY, steps); r.mutation.Unlocked? && peer in r.peers && r.peers[peer].inRoom
    ensures var r := Run(EMPTY, steps);
      && (Enabled(r, BeginShare(peer, count)) <==> |r.peers[peer].files| + count <= 32)
      && (|r.peers[peer].files| + count <= 32 ==> Runs(r, more) && Shared(r, Run(r, more), peer, count))
  {
    hide Runs, Run, Inv, Enabled, Apply;
    EmptyInv();
    RunKeepsInv(EMPTY, steps);
    var r := Run(EMPTY, steps);
    more := [BeginShare(peer, count)] + [ListFiles] + [IndexFiles];
    ShareIsEnabled(r, peer, count);
    if |r.peers[peer].files| + count <= 32 {
      ShareSteps(r, peer, count);
      var a := Apply(r, BeginShare(peer, count));
      var b := Apply(a, ListFiles);
      OneStep(r, BeginShare(peer, count));
      OneStep(a, ListFiles);
      OneStep(b, IndexFiles);
      RunConcat(r, [BeginShare(peer, count)], [ListFiles]);
      RunConcat(r, [BeginShare(peer, count)] + [ListFiles], [IndexFiles]);
    }
  }

  lemma ShareIsEnabled(r: Room, peer: nat, count: nat)
    requires Inv(r) && r.mutation.Unlocked? && peer in r.peers && r.peers[peer].inRoom
    ensures Enabled(r, BeginShare(peer, count)) <==> |r.peers[peer].files| + count <= 32
  {
  }

  lemma ShareSteps(r: Room, peer: nat, count: nat)
    requires Inv(r) && Enabled(r, BeginShare(peer, count))
    ensures var a := Apply(r, BeginShare(peer, count));
      Enabled(a, ListFiles) && Enabled(Apply(a, ListFiles), IndexFiles)
      && Shared(r, Apply(Apply(a, ListFiles), IndexFiles), peer, count)
  {
    var a := Apply(r, BeginShare(peer, count));
    var b := Apply(a, ListFiles);
    var files, ids := r.peers[peer].files, NewIds(r.nextFile, count);
    assert b.peers[peer].files == files + ids;
    forall i | |files| <= i < |files| + count ensures var file := (files + ids)[i]; file in ids && file !in r.files {
      assert (files + ids)[i] == ids[i - |files|];
    }
  }

  ghost predicate Few(f: File) {
    && |f.registered| <= 32
    && forall s :: s in f.registered || s in f.valid ==> s < f.nextSubscriber
  }

  ghost predicate FewSubscribers(r: Room) {
    forall file :: file in r.files ==> Few(r.files[file])
  }

  lemma FewAfter(f: File, subscriber: nat)
    requires Few(f)
    ensures Few(f.(registered := f.registered - {subscriber}, valid := f.valid - {subscriber}))
    ensures Few(f.(available := false, registered := {})) && Few(f.(valid := f.valid - {subscriber}))
    ensures Few(File(true, {}, {}, 1))
    ensures |f.registered| < 32 ==>
      Few(f.(registered := f.registered + {f.nextSubscriber}, valid := f.valid + {f.nextSubscriber},
             nextSubscriber := f.nextSubscriber + 1))
  {
    SmallerSet(f.registered - {subscriber}, f.registered);
  }

  lemma StepKeepsFew(r: Room, step: Step)
    requires FewSubscribers(r) && Enabled(r, step)
    ensures FewSubscribers(Apply(r, step))
  {
    hide Few, HasCapacityFor;
    var t := Apply(r, step);
    match step {
      case MarkUnavailable(_, file) => FewAfter(r.files[file], 0);
      case InvalidateSubscriber(_, file, subscriber) => FewAfter(r.files[file], subscriber);
      case Subscribe(file) => FewAfter(r.files[file], 0);
      case DropSubscriber(file, subscriber) => FewAfter(r.files[file], subscriber);
      case ListFiles =>
        NewIsFew();
        ListMoves(r);
      case _ =>
    }
  }

  lemma NewIsFew()
    ensures Few(File(true, {}, {}, 1))
  {
  }

  lemma SmallerSet(a: set<nat>, b: set<nat>)
    requires a <= b
    ensures |a| <= |b|
  {
    assert b == a + (b - a);
  }

  lemma {:induction false} RunKeepsFew(r: Room, steps: seq<Step>)
    requires FewSubscribers(r) && Runs(r, steps)
    ensures FewSubscribers(Run(r, steps))
    decreases |steps|
  {
    hide Enabled, Apply, FewSubscribers;
    if steps != [] {
      StepKeepsFew(r, steps[0]);
      RunKeepsFew(Apply(r, steps[0]), steps[1..]);
    }
  }

  /**
   In every run a file has at most 32 subscribers, and subscribing to an available file that
   has fewer adds exactly one, a new one that can stream it; otherwise nothing changes.
   */
  lemma SubscribersAreBounded(steps: seq<Step>, file: nat)
    requires Runs(EMPTY, steps) && file in Run(EMPTY, steps).files
    ensures var r := Run(EMPTY, steps);
      var f, t := r.files[file], Apply(r, Subscribe(file));
      && |f.registered| <= 32 && t == r.(files := t.files) && t.files.Keys == r.files.Keys
      && (forall other :: other in r.files && other != file ==> t.files[other] == r.files[other])
      && if f.available && |f.registered| < 32 then
           exists s :: s !in f.registered && s !in f.valid && t.files[file].available
             && t.files[file].registered == f.registered + {s} && t.files[file].valid == f.valid + {s}
         else t.files[file] == f
  {
    RunKeepsFew(EMPTY, steps);
  }

  // ---------- A withdrawal ends ----------

  lemma MarkShrinks(r: Room, job: nat, file: nat)
    requires Inv(r) && job in r.jobs && file in r.jobs[job].unmarked
    ensures Enabled(r, MarkUnavailable(job, file))
    ensures var t := Apply(r, MarkUnavailable(job, file)).jobs;
      job in t && t[job].unmarked == r.jobs[job].unmarked - {file} && t[job].files == r.jobs[job].files
  {
    assert JobInv(r, r.jobs[job]);
  }

  lemma InvalidateShrinks(r: Room, job: nat, d: (nat, nat))
    requires Inv(r) && job in r.jobs && d in r.jobs[job].doomed
    ensures Enabled(r, InvalidateSubscriber(job, d.0, d.1))
    ensures var t := Apply(r, InvalidateSubscriber(job, d.0, d.1)).jobs;
      job in t && t[job].doomed == r.jobs[job].doomed - {d} && t[job].unmarked == r.jobs[job].unmarked
      && t[job].files == r.jobs[job].files
  {
    assert JobInv(r, r.jobs[job]);
    assert d == (d.0, d.1);
  }

  lemma {:induction false} Finishes(r: Room, job: nat) returns (steps: seq<Step>)
    requires Inv(r) && job in r.jobs
    ensures Runs(r, steps) && job in Run(r, steps).jobs && Run(r, steps).jobs[job].returned
    ensures Run(r, steps).jobs[job].files == r.jobs[job].files
    decreases r.jobs[job].unmarked, r.jobs[job].doomed
  {
    hide Inv, Enabled, Apply;
    var first: Step;
    var j := r.jobs[job];
    if j.unmarked != {} {
      var file :| file in j.unmarked;
      first := MarkUnavailable(job, file);
      MarkShrinks(r, job, file);
    } else if j.doomed != {} {
      var d :| d in j.doomed;
      first := InvalidateSubscriber(job, d.0, d.1);
      InvalidateShrinks(r, job, d);
    } else {
      steps := [Return(job)];
      ReturnEnds(r, job);
      OneStep(r, Return(job));
      return;
    }
    StepKeepsInv(r, first);
    var rest := Finishes(Apply(r, first), job);
    steps := [first] + rest;
    assert steps[1..] == rest;
  }

  lemma ReturnEnds(r: Room, job: nat)
    requires job in r.jobs && r.jobs[job].unmarked == {} && r.jobs[job].doomed == {}
    ensures Enabled(r, Return(job))
    ensures var t := Apply(r, Return(job)).jobs; job in t && t[job].returned && t[job].files == r.jobs[job].files
  {
  }

  /** From every state of every run, a withdrawal under way can return, with the files it took. */
  lemma WithdrawalCanReturn(steps: seq<Step>, job: nat) returns (more: seq<Step>)
    requires Runs(EMPTY, steps) && job in Run(EMPTY, steps).jobs
    ensures var r := Run(EMPTY, steps);
      && Runs(r, more) && job in Run(r, more).jobs && Run(r, more).jobs[job].returned
      && Run(r, more).jobs[job].files == r.jobs[job].files
  {
    EmptyInv();
    RunKeepsInv(EMPTY, steps);
    more := Finishes(Run(EMPTY, steps), job);
  }
}
