/** Files sent over the shared socket arrive whole, whatever else is interleaved or cancelled. */
module TransferIdentity {
  import opened Prelude
  import opened StreamRouting
  import opened StreamMux
  import opened StreamRefinement
  import opened FileTransfer

  predicate NoEnd(items: seq<Item>) {
    forall i :: 0 <= i < |items| ==> !items[i].End?
  }

  /** The stream of task tid has an open queue, opened before anything of the stream was routed. */
  ghost predicate ListenedFromTheStart(s: Sys, tid: Tid) {
    && Reachable(s) && tid in s.tasks && s.tasks[tid].rid in s.router.queues
    && s.tasks[tid].rid in s.openedAt && s.openedAt[s.tasks[tid].rid] == 0
  }

  function QueueOf(s: Sys, tid: Tid): seq<Item>
    requires tid in s.tasks && s.tasks[tid].rid in s.router.queues
  {
    s.router.queues[s.tasks[tid].rid]
  }

  lemma QueueFollowsPlan(s: Sys, tid: Tid)
    requires ListenedFromTheStart(s, tid)
    ensures var t := s.tasks[tid];
      && t.kept <= |t.program| && NoChunks(t.tail) && QueueOf(s, tid) <= t.program[..t.kept] + t.tail
  {
    var t := s.tasks[tid];
    QueueHoldsWhatWasSent(s, t.rid);
    ReachableInv(s);
    assert TaskInv(s, tid);
    SentFollowsPlan(s, tid);
  }

  /** A program whose only end marker is its last item has been received whole once an end marker arrives. */
  lemma EndMeansWhole(program: seq<Item>, kept: nat, tail: seq<Item>, got: seq<Item>, e: nat)
    requires kept <= |program| && NoEnd(tail) && program != [] && NoEnd(program[..|program| - 1])
    requires got <= program[..kept] + tail && e < |got| && got[e].End?
    ensures e == |program| - 1 && got[..e + 1] == program
  {
    var plan := program[..kept] + tail;
    assert forall i :: 0 <= i < |tail| ==> plan[kept + i] == tail[i];
    assert forall i :: 0 <= i < kept ==> plan[i] == program[i];
    assert forall i :: 0 <= i < |program| - 1 ==> program[..|program| - 1][i] == program[i];
    assert got[e] == plan[e];
    assert e < kept && e == |program| - 1;
    assert got[..e + 1] == plan[..e + 1] == program;
  }

  lemma ProgramShape(front: seq<Item>, parts: seq<Bytes>)
    requires NoEnd(front)
    ensures var program := front + Chunks(parts) + [End];
      NoEnd(program[..|program| - 1]) && program[..|program| - 1] == front + Chunks(parts)
  {
    ChunksOnly(parts);
    var program := front + Chunks(parts) + [End];
    assert program[..|program| - 1] == front + Chunks(parts);
  }

  lemma PayloadOfProgram(front: seq<Item>, parts: seq<Bytes>)
    requires NoChunks(front)
    ensures Payload(front + Chunks(parts)) == Concat(parts)
    ensures Payload(front + Chunks(parts) + [End]) == Concat(parts)
  {
    NoPayload(front);
    PayloadOfChunks(parts);
    PayloadAppend(front, Chunks(parts));
    PayloadAppend(front + Chunks(parts), [End]);
    PayloadOne(End);
    assert Concat(parts) + [] == Concat(parts);
  }

  /**
   Download: the bytes that have arrived are always the front of the file, and when the end
   marker arrives they are the file. A cancelled read_file sends no end marker.
   */
  lemma DownloadIdentity(s: Sys, tid: Tid, parts: seq<Bytes>, content: Bytes)
    requires ListenedFromTheStart(s, tid) && s.tasks[tid].program == ReadProgram(parts)
    requires Concat(parts) == content && NoEnd(s.tasks[tid].tail)
    ensures Payload(QueueOf(s, tid)) <= content
    ensures forall e :: 0 <= e < |QueueOf(s, tid)| && QueueOf(s, tid)[e].End? ==>
      QueueOf(s, tid)[..e] == [Start] + Chunks(parts) && Payload(QueueOf(s, tid)[..e]) == content
  {
    var t, q := s.tasks[tid], QueueOf(s, tid);
    QueueFollowsPlan(s, tid);
    PayloadOfProgram([Start], parts);
    PayloadPrefix(q, t.program[..t.kept] + t.tail);
    PayloadOfPlan(t.program, t.kept, t.tail);
    forall e | 0 <= e < |q| && q[e].End?
      ensures q[..e] == [Start] + Chunks(parts)
    {
      WholeBeforeEnd([Start], parts, t.kept, t.tail, q, e);
    }
  }

  lemma WholeBeforeEnd(front: seq<Item>, parts: seq<Bytes>, kept: nat, tail: seq<Item>, got: seq<Item>, e: nat)
    requires NoEnd(front) && NoEnd(tail)
    requires var program := front + Chunks(parts) + [End];
      kept <= |program| && got <= program[..kept] + tail && e < |got| && got[e].End?
    ensures got[..e] == front + Chunks(parts) && got[..e + 1] == front + Chunks(parts) + [End]
  {
    ProgramShape(front, parts);
    EndMeansWhole(front + Chunks(parts) + [End], kept, tail, got, e);
    assert got[..e] == got[..e + 1][..e];
  }

  /**
   Upload: at every moment the target holds its old content or the whole upload, and then
   the count reported is the length of the upload. A cancelled upload sends nothing more.
   */
  lemma UploadIdentity(s: Sys, tid: Tid, parts: seq<Bytes>, files: map<Path, Bytes>, path: Path, acts: seq<Act>)
    requires ListenedFromTheStart(s, tid) && s.tasks[tid].program == UploadProgram(parts)
    requires s.tasks[tid].tail == []
    requires ActsValid(Begin(files, path), path, acts) && TakenItems(acts) <= QueueOf(s, tid)
    ensures var w := AfterActs(Begin(files, path), path, acts);
      if w.phase == Committed
      then ContentAt(w.files, path) == Some(Concat(parts)) && w.written == |Concat(parts)|
      else ContentAt(w.files, path) == ContentAt(files, path)
  {
    var t, taken := s.tasks[tid], TakenItems(acts);
    hide Payload, Reachable, ActOn, Chunks;
    TargetIsOldOrWhole(files, path, acts);
    if AfterActs(Begin(files, path), path, acts).phase == Committed {
      QueueFollowsPlan(s, tid);
      PayloadOfProgram([], parts);
      assert [] + Chunks(parts) == Chunks(parts);
      WholeBeforeEnd([], parts, t.kept, t.tail, taken, |taken| - 1);
      assert taken[..|taken|] == taken;
    }
  }

  // ----- transfers that were not cancelled end -----

  /** Task tid ran to its end and everything on the wire has been delivered. */
  predicate Done(s: Sys, tid: Tid)
    requires tid in s.tasks
  {
    var t := s.tasks[tid];
    t.kept == |t.program| && t.tail == [] && t.todo == [] && t.finale == [] && s.delivered == |s.log|
  }

  /** The queue of a finished stream is its sender's whole program. */
  lemma FinishedQueueIsProgram(s: Sys, tid: Tid)
    requires ListenedFromTheStart(s, tid) && Done(s, tid)
    ensures QueueOf(s, tid) == s.tasks[tid].program
  {
    QueueHoldsWhatWasSent(s, s.tasks[tid].rid);
    FinishedTaskSentProgram(s, tid);
  }

  lemma ChunksThenEnd(front: seq<Item>, parts: seq<Bytes>, program: seq<Item>)
    requires |program| == |front| + |parts| + 1 && front <= program && program[|program| - 1] == End
    requires forall i :: 0 <= i < |parts| ==> program[|front| + i] == Chunk(parts[i])
    ensures program == front + Chunks(parts) + [End]
  {
    ChunksOnly(parts);
  }

  /**
   A finished upload of these chunks is written: the undisturbed write over its queue commits,
   and the path holds all bytes of the chunks.
   */
  lemma UploadCommits(s: Sys, tid: Tid, chunks: seq<Bytes>, files: map<Path, Bytes>, path: Path)
    requires ListenedFromTheStart(s, tid) && Done(s, tid)
    requires var parts, program := NonEmpty(chunks), s.tasks[tid].program;
      && |program| == |parts| + 1 && program[|parts|] == End
      && forall i :: 0 <= i < |parts| ==> program[i] == Chunk(parts[i])
    ensures ActsValid(Begin(files, path), path, Undisturbed(QueueOf(s, tid), false))
    ensures var w := AfterActs(Begin(files, path), path, Undisturbed(QueueOf(s, tid), false));
      && w.phase == Committed && w.written == |Concat(chunks)|
      && path in w.files && w.files[path] == Concat(chunks)
  {
    FinishedQueueIsProgram(s, tid);
    hide *;
    WriteOfUploadCommits(s.tasks[tid].program, NonEmpty(chunks), files, path);
  }

  lemma WriteOfUploadCommits(items: seq<Item>, parts: seq<Bytes>, files: map<Path, Bytes>, path: Path)
    requires |items| == |parts| + 1 && items[|parts|] == End
    requires forall i :: 0 <= i < |parts| ==> items[i] == Chunk(parts[i])
    ensures ActsValid(Begin(files, path), path, Undisturbed(items, false))
    ensures var w := AfterActs(Begin(files, path), path, Undisturbed(items, false));
      && w.phase == Committed && w.written == |Concat(parts)|
      && path in w.files && w.files[path] == Concat(parts)
  {
    hide *;
    ChunksThenEnd([], parts, items);
    WholeUploadCommits(parts, files, path);
    assert [] + Chunks(parts) == Chunks(parts);
  }

  lemma {:induction false} FirstEnd(front: seq<Item>)
    requires forall i :: 0 <= i < |front| ==> !Ends(front[i])
    ensures EndIndex(front + [End]) == |front|
  {
    if front != [] {
      assert (front + [End])[1..] == front[1..] + [End];
      FirstEnd(front[1..]);
    }
  }

  /** An undisturbed write that is given chunks and an end marker commits. */
  lemma WholeUploadCommits(parts: seq<Bytes>, files: map<Path, Bytes>, path: Path)
    ensures var items := Chunks(parts) + [End];
      ActsValid(Begin(files, path), path, Undisturbed(items, false)) &&
      var w := AfterActs(Begin(files, path), path, Undisturbed(items, false));
      && w.phase == Committed && w.written == |Concat(parts)|
      && path in w.files && w.files[path] == Concat(parts)
  {
    var items := Chunks(parts) + [End];
    ChunksOnly(parts);
    FirstEnd(Chunks(parts));
    PayloadOfChunks(parts);
    assert items[..|parts|] == Chunks(parts);
    hide Undisturbed, AfterActs, ActsValid, Payload, Chunks, EndIndex;
    UndisturbedOutcome(files, [], path, items, false);
    assert [] + Concat(parts) == Concat(parts);
    assert |PartPath(path)| != |path|;
  }

  /** A finished read_file has delivered exactly a start marker, the file's chunks and an end marker, and the file's bytes. */
  lemma DownloadArrives(s: Sys, tid: Tid, parts: seq<Bytes>)
    requires ListenedFromTheStart(s, tid) && Done(s, tid)
    requires var program := s.tasks[tid].program;
      && |program| == |parts| + 2 && program[0] == Start && program[|parts| + 1] == End
      && forall i :: 0 <= i < |parts| ==> program[i + 1] == Chunk(parts[i])
    ensures var q := QueueOf(s, tid);
      && |q| == |parts| + 2 && q[0] == Start && q[|parts| + 1] == End
      && (forall i :: 0 <= i < |parts| ==> q[i + 1] == Chunk(parts[i]))
      && Payload(q) == Concat(parts)
  {
    FinishedQueueIsProgram(s, tid);
    ChunksThenEnd([Start], parts, s.tasks[tid].program);
    PayloadOfProgram([Start], parts);
  }
}
