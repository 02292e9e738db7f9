/**
 Files over the shared socket: read_file and write_file of agent/agent.py, the hub's
 upload loop, and what arrives at the far end whatever else the socket carries.
 */
module FileTransfer {
  import opened Prelude
  import opened StreamRouting
  import opened StreamMux
  import opened StreamRefinement

  type Path = string

  const CHUNK_SIZE: nat := 262_144

  // ----- reading: op_read_file_stream -----

  /** An open file that does not change; a read may return less than asked for, but not nothing before the end. */
  class FileReader {
    const content: Bytes
    var pos: nat

    constructor (content: Bytes)
      ensures this.content == content && pos == 0
    {
      this.content, pos := content, 0;
    }

    method Read(n: nat) returns (chunk: Bytes)
      requires pos <= |content| && n > 0
      modifies this
      ensures old(pos) <= pos <= |content| && chunk == content[old(pos)..pos] && |chunk| <= n
      ensures chunk == [] <==> old(pos) == |content|
    {
      if pos == |content| { return []; }
      var k :| 1 <= k <= n && pos + k <= |content|;
      chunk := content[pos..pos + k];
      pos := pos + k;
    }
  }

  /**
   What read_file sends: a start marker, the file in chunks that are not empty and no larger than
   256 KiB, and an end marker.
   */
  method ReadInChunks(f: FileReader) returns (parts: seq<Bytes>, program: seq<Item>)
    requires f.pos == 0
    modifies f
    ensures Concat(parts) == f.content
    ensures forall i :: 0 <= i < |parts| ==> 0 < |parts[i]| <= 262_144
    ensures |program| == |parts| + 2 && program[0] == Start && program[|parts| + 1] == End
    ensures forall i :: 0 <= i < |parts| ==> program[i + 1] == Chunk(parts[i])
    ensures program == ReadProgram(parts)
  {
    parts, program := [], [Start];
    while true
      invariant f.pos <= |f.content| && Concat(parts) == f.content[..f.pos]
      invariant forall i :: 0 <= i < |parts| ==> 0 < |parts[i]| <= CHUNK_SIZE
      invariant program == [Start] + Chunks(parts)
      decreases |f.content| - f.pos
    {
      var chunk := f.Read(CHUNK_SIZE);
      if chunk == [] { break; }
      ConcatAppend(parts, [chunk]);
      ChunksAppend(parts, chunk);
      assert Concat([chunk]) == chunk + Concat([]);
      parts, program := parts + [chunk], program + [Chunk(chunk)];
    }
    program := program + [End];
    ChunksOnly(parts);
  }

  /** What read_file sets out to send. */
  function ReadProgram(parts: seq<Bytes>): seq<Item> {
    [Start] + Chunks(parts) + [End]
  }

  // ----- sending an upload: AgentConnection.upload -----

  /** The hub forwards the chunks of a browser's upload that are not empty, and then one end marker. */
  method SendUpload(chunks: seq<Bytes>) returns (parts: seq<Bytes>, program: seq<Item>)
    ensures parts == NonEmpty(chunks)
    ensures |program| == |parts| + 1 && program[|parts|] == End
    ensures forall i :: 0 <= i < |parts| ==> program[i] == Chunk(parts[i])
    ensures program == UploadProgram(parts)
    ensures Concat(parts) == Concat(chunks) && forall i :: 0 <= i < |parts| ==> parts[i] != []
  {
    parts := [];
    var frames := [];
    for i := 0 to |chunks|
      invariant parts == NonEmpty(chunks[..i]) && frames == Chunks(parts)
    {
      assert chunks[..i + 1] == chunks[..i] + [chunks[i]];
      NonEmptyAppend(chunks[..i], [chunks[i]]);
      assert NonEmpty([chunks[i]]) == if chunks[i] == [] then [] else [chunks[i]];
      if chunks[i] != [] {
        ChunksAppend(parts, chunks[i]);
        parts, frames := parts + [chunks[i]], frames + [Chunk(chunks[i])];
      }
    }
    assert chunks[..|chunks|] == chunks;
    program := frames + [End];
    ChunksOnly(parts);
  }

  function UploadProgram(parts: seq<Bytes>): seq<Item> {
    Chunks(parts) + [End]
  }

  lemma {:induction false} ChunksAppend(parts: seq<Bytes>, part: Bytes)
    ensures Chunks(parts + [part]) == Chunks(parts) + [Chunk(part)]
  {
    if parts != [] {
      assert (parts + [part])[1..] == parts[1..] + [part];
      ChunksAppend(parts[1..], part);
    } else {
      assert (parts + [part])[1..] == [];
    }
  }

  lemma {:induction false} ChunksOnly(parts: seq<Bytes>)
    ensures |Chunks(parts)| == |parts|
    ensures forall i :: 0 <= i < |parts| ==> Chunks(parts)[i] == Chunk(parts[i])
  {
    if parts != [] { ChunksOnly(parts[1..]); }
  }

  // ----- writing: op_write_file -----

  class FileSystem {
    var files: map<Path, Bytes>

    constructor ()
      ensures files == map[]
    {
      files := map[];
    }
  }

  function PartPath(p: Path): Path {
    p + ".part"
  }

  /** The item that ends a transfer: its end marker, or an abort. */
  predicate Ends(item: Item) {
    item.End? || item.Note?
  }

  /**
   One step of a running write, or of anybody else writing elsewhere. TimeOut stands for any
   exception, after which the part file is removed; a cancelled task leaves it behind.
   */
  datatype Act = Take(item: Item) | TimeOut | Cancel | Elsewhere(path: Path, content: Option<Bytes>)

  datatype Phase = Receiving | Committed | Failed | Cancelled

  datatype Write = Write(files: map<Path, Bytes>, phase: Phase, written: nat)

  function Begin(files: map<Path, Bytes>, path: Path): Write {
    Write(files[PartPath(path) := []], Receiving, 0)
  }

  predicate CanAct(w: Write, path: Path, a: Act) {
    match a
    case Elsewhere(p, _) => p != path && p != PartPath(path)
    case _ => w.phase == Receiving && PartPath(path) in w.files
  }

  function ActOn(w: Write, path: Path, a: Act): Write
    requires CanAct(w, path, a)
  {
    var tmp := PartPath(path);
    match a
    case Elsewhere(p, Some(content)) => w.(files := w.files[p := content])
    case Elsewhere(p, None) => w.(files := w.files - {p})
    case Take(Chunk(data)) => w.(files := w.files[tmp := w.files[tmp] + data], written := w.written + |data|)
    case Take(End) => w.(files := w.files[path := w.files[tmp]] - {tmp}, phase := Committed)
    case Take(Note(_)) => w.(files := w.files - {tmp}, phase := Failed)
    case Take(Start) => w
    case TimeOut => w.(files := w.files - {tmp}, phase := Failed)
    case Cancel => w.(phase := Cancelled)
  }

  predicate ActsValid(w: Write, path: Path, acts: seq<Act>)
    decreases acts
  {
    acts != [] ==> CanAct(w, path, acts[0]) && ActsValid(ActOn(w, path, acts[0]), path, acts[1..])
  }

  function AfterActs(w: Write, path: Path, acts: seq<Act>): Write
    requires ActsValid(w, path, acts)
    decreases acts
  {
    if acts == [] then w else AfterActs(ActOn(w, path, acts[0]), path, acts[1..])
  }

  /** The queue items among the acts. */
  function TakenItems(acts: seq<Act>): seq<Item> {
    if acts == [] then [] else (if acts[0].Take? then [acts[0].item] else []) + TakenItems(acts[1..])
  }

  function ContentAt(files: map<Path, Bytes>, p: Path): Option<Bytes> {
    if p in files then Some(files[p]) else None
  }

  lemma {:induction false} WriteInvariant(w: Write, path: Path, acts: seq<Act>, before: seq<Item>, initial: Option<Bytes>)
    requires ActsValid(w, path, acts)
    requires w.phase == Receiving && ContentAt(w.files, PartPath(path)) == Some(Payload(before))
    requires w.written == |Payload(before)| && ContentAt(w.files, path) == initial
    ensures var w' := AfterActs(w, path, acts);
      && (w'.phase != Committed ==> ContentAt(w'.files, path) == initial)
      && (w'.phase == Committed ==>
            && TakenItems(acts) != [] && TakenItems(acts)[|TakenItems(acts)| - 1] == End
            && ContentAt(w'.files, path) == Some(Payload(before + TakenItems(acts)))
            && w'.written == |Payload(before + TakenItems(acts))|)
    decreases acts
  {
    hide Payload, ContentAt, ActOn, CanAct, PartPath;
    if acts == [] {
    } else if acts[0].Elsewhere? {
      ElsewhereLeaves(w, path, acts[0]);
      assert TakenItems(acts) == TakenItems(acts[1..]);
      WriteInvariant(ActOn(w, path, acts[0]), path, acts[1..], before, initial);
    } else if !acts[0].Take? {
      StopLeaves(w, path, acts[0]);
      OnlyElsewhere(ActOn(w, path, acts[0]), path, acts[1..]);
      assert TakenItems(acts) == TakenItems(acts[1..]);
    } else {
      var item, rest, w1 := acts[0].item, acts[1..], ActOn(w, path, acts[0]);
      assert acts[0] == Take(item);
      TakeAdds(w, path, item, before);
      assert before + TakenItems(acts) == (before + [item]) + TakenItems(rest);
      if Ends(item) {
        OnlyElsewhere(w1, path, rest);
        assert TakenItems(acts) == [item] && before + TakenItems(acts) == before + [item];
      } else {
        WriteInvariant(w1, path, rest, before + [item], initial);
      }
    }
  }

  lemma ElsewhereLeaves(w: Write, path: Path, a: Act)
    requires a.Elsewhere? && CanAct(w, path, a)
    ensures var w' := ActOn(w, path, a);
      && w'.phase == w.phase && w'.written == w.written
      && ContentAt(w'.files, path) == ContentAt(w.files, path)
      && ContentAt(w'.files, PartPath(path)) == ContentAt(w.files, PartPath(path))
  {
  }

  lemma StopLeaves(w: Write, path: Path, a: Act)
    requires (a.TimeOut? || a.Cancel?) && CanAct(w, path, a)
    ensures var w' := ActOn(w, path, a);
      && w'.phase == (if a.Cancel? then Cancelled else Failed) && ContentAt(w'.files, path) == ContentAt(w.files, path)
  {
    assert |PartPath(path)| != |path|;
  }

  lemma TakeAdds(w: Write, path: Path, item: Item, before: seq<Item>)
    requires CanAct(w, path, Take(item)) && ContentAt(w.files, PartPath(path)) == Some(Payload(before))
    requires w.written == |Payload(before)|
    ensures var w' := ActOn(w, path, Take(item));
      && w'.written == |Payload(before + [item])|
      && w'.phase == (if item.End? then Committed else if item.Note? then Failed else Receiving)
      && (!Ends(item) ==> ContentAt(w'.files, PartPath(path)) == Some(Payload(before + [item])))
      && ContentAt(w'.files, path) == if item.End? then Some(Payload(before + [item])) else ContentAt(w.files, path)
  {
    assert |PartPath(path)| != |path|;
    assert PartPath(path) != path;
    PayloadAppend(before, [item]);
    PayloadOne(item);
    assert Payload(before) + [] == Payload(before);
  }

  lemma {:induction false} OnlyElsewhere(w: Write, path: Path, acts: seq<Act>)
    requires ActsValid(w, path, acts) && w.phase != Receiving
    ensures TakenItems(acts) == []
    ensures var w' := AfterActs(w, path, acts);
      w'.phase == w.phase && w'.written == w.written && ContentAt(w'.files, path) == ContentAt(w.files, path)
    decreases acts
  {
    if acts != [] {
      OnlyElsewhere(ActOn(w, path, acts[0]), path, acts[1..]);
    }
  }

  /**
   At every moment of a write, whatever others do to other files, the target holds what it held
   before or, once the end marker was taken, all the bytes taken; written counts them.
   */
  lemma TargetIsOldOrWhole(files: map<Path, Bytes>, path: Path, acts: seq<Act>)
    requires ActsValid(Begin(files, path), path, acts)
    ensures var w := AfterActs(Begin(files, path), path, acts);
      && (w.phase != Committed ==> ContentAt(w.files, path) == ContentAt(files, path))
      && (w.phase == Committed ==>
            && TakenItems(acts) != [] && TakenItems(acts)[|TakenItems(acts)| - 1] == End
            && ContentAt(w.files, path) == Some(Payload(TakenItems(acts)))
            && w.written == |Payload(TakenItems(acts))|)
  {
    assert |PartPath(path)| != |path|;
    assert [] + TakenItems(acts) == TakenItems(acts);
    WriteInvariant(Begin(files, path), path, acts, [], ContentAt(files, path));
  }

  // ----- the write as one operation -----

  datatype WriteResult = Written(written: nat, mismatch: bool) | Aborted | Stopped

  /** Where the transfer ends in what the queue yields, or its length. */
  function EndIndex(items: seq<Item>): (k: nat)
    ensures k <= |items| && (k < |items| ==> items[k].End? || items[k].Note?)
    ensures forall i :: 0 <= i < k ==> items[i].Start? || items[i].Chunk?
  {
    if items == [] || Ends(items[0]) then 0 else 1 + EndIndex(items[1..])
  }

  /** An undisturbed write: items up to the one that ends it; without one the queue stays silent too long, or the writer is cancelled. */
  function Undisturbed(items: seq<Item>, cancelled: bool): seq<Act> {
    if items == [] then [if cancelled then Cancel else TimeOut]
    else [Take(items[0])] + if Ends(items[0]) then [] else Undisturbed(items[1..], cancelled)
  }

  function ResultOf(w: Write, expected: Option<nat>): WriteResult {
    match w.phase
    case Committed => Written(w.written, expected.Some? && expected.value != w.written)
    case Cancelled => Stopped
    case _ => Aborted
  }

  lemma {:induction false} UndisturbedIsValid(w: Write, path: Path, items: seq<Item>, cancelled: bool)
    requires w.phase == Receiving && PartPath(path) in w.files
    ensures ActsValid(w, path, Undisturbed(items, cancelled))
    decreases items
  {
    if items != [] {
      var w1, rest := ActOn(w, path, Take(items[0])), if Ends(items[0]) then [] else Undisturbed(items[1..], cancelled);
      assert Undisturbed(items, cancelled)[1..] == rest;
      if !Ends(items[0]) { UndisturbedIsValid(w1, path, items[1..], cancelled); }
    } else {
      assert Undisturbed(items, cancelled)[1..] == [];
    }
  }

  /** Taking the first item of an undisturbed write. */
  lemma UndisturbedSteps(w: Write, path: Path, items: seq<Item>, cancelled: bool)
    requires w.phase == Receiving && PartPath(path) in w.files
    ensures ActsValid(w, path, Undisturbed(items, cancelled))
    ensures var end := AfterActs(w, path, Undisturbed(items, cancelled));
      if items == [] then end == ActOn(w, path, if cancelled then Cancel else TimeOut)
      else if Ends(items[0]) then end == ActOn(w, path, Take(items[0]))
      else
        var w1 := ActOn(w, path, Take(items[0]));
        w1.phase == Receiving && PartPath(path) in w1.files && ActsValid(w1, path, Undisturbed(items[1..], cancelled)) &&
        end == AfterActs(w1, path, Undisturbed(items[1..], cancelled))
  {
    UndisturbedIsValid(w, path, items, cancelled);
    var rest := if items == [] || Ends(items[0]) then [] else Undisturbed(items[1..], cancelled);
    assert Undisturbed(items, cancelled)[1..] == rest;
  }

  /** An undisturbed write from the moment got has been received. */
  lemma {:induction false} UndisturbedOutcome(files: map<Path, Bytes>, got: Bytes, path: Path, items: seq<Item>, cancelled: bool)
    ensures var w := Write(files[PartPath(path) := got], Receiving, |got|);
      ActsValid(w, path, Undisturbed(items, cancelled)) &&
      var w', k := AfterActs(w, path, Undisturbed(items, cancelled)), EndIndex(items);
      var all := got + Payload(items[..k]);
      if k < |items| && items[k].End? then w' == Write(files[path := all] - {PartPath(path)}, Committed, |all|)
      else if k == |items| && cancelled then w' == Write(files[PartPath(path) := all], Cancelled, |all|)
      else w' == Write(files - {PartPath(path)}, Failed, |all|)
    decreases items
  {
    var w := Write(files[PartPath(path) := got], Receiving, |got|);
    UndisturbedSteps(w, path, items, cancelled);
    hide AfterActs, ActsValid, Undisturbed, ActOn, PartPath, Payload;
    if items == [] || Ends(items[0]) {
      NothingMore(files, got, path, items, cancelled);
    } else {
      var item, rest := items[0], items[1..];
      var more := if item.Chunk? then item.data else [];
      TakeMore(files, got, path, item);
      FirstItem(items, EndIndex(rest));
      UndisturbedOutcome(files, got + more, path, rest, cancelled);
      Associative(got, more, Payload(rest[..EndIndex(rest)]));
    }
  }

  lemma NothingMore(files: map<Path, Bytes>, got: Bytes, path: Path, items: seq<Item>, cancelled: bool)
    requires items == [] || Ends(items[0])
    ensures got + Payload(items[..0]) == got
    ensures var w := Write(files[PartPath(path) := got], Receiving, |got|);
      if items == [] then ActOn(w, path, if cancelled then Cancel else TimeOut) ==
        (if cancelled then Write(files[PartPath(path) := got], Cancelled, |got|) else Write(files - {PartPath(path)}, Failed, |got|))
      else if items[0].End? then ActOn(w, path, Take(items[0])) == Write(files[path := got] - {PartPath(path)}, Committed, |got|)
      else ActOn(w, path, Take(items[0])) == Write(files - {PartPath(path)}, Failed, |got|)
  {
    assert |PartPath(path)| != |path|;
    assert items[..0] == [];
  }

  lemma TakeMore(files: map<Path, Bytes>, got: Bytes, path: Path, item: Item)
    requires !Ends(item)
    ensures var all := got + if item.Chunk? then item.data else [];
      ActOn(Write(files[PartPath(path) := got], Receiving, |got|), path, Take(item))
        == Write(files[PartPath(path) := all], Receiving, |all|)
  {
    assert got + [] == got;
    if item.Chunk? {
      assert files[PartPath(path) := got][PartPath(path) := got + item.data] == files[PartPath(path) := got + item.data];
    }
  }

  lemma FirstItem(items: seq<Item>, k: nat)
    requires items != [] && k < |items|
    ensures Payload(items[..k + 1]) == (if items[0].Chunk? then items[0].data else []) + Payload(items[1..][..k])
  {
    assert items[..k + 1] == [items[0]] + items[1..][..k];
    PayloadAppend([items[0]], items[1..][..k]);
    PayloadOne(items[0]);
  }

  /**
   Drains the queue into a temporary file and renames it over the target. items is what the queue
   yields before it stays empty for too long, or until the writer is cancelled. The outcome is that
   of the write's single steps; spelled out: up to an end marker the target becomes what was
   received, otherwise it is not touched, and only a cancelled write leaves its part file.
   */
  method WriteFile(fs: FileSystem, path: Path, expected: Option<nat>, items: seq<Item>, cancelled: bool) returns (r: WriteResult)
    modifies fs
    ensures ActsValid(Begin(old(fs.files), path), path, Undisturbed(items, cancelled))
    ensures var w := AfterActs(Begin(old(fs.files), path), path, Undisturbed(items, cancelled));
      fs.files == w.files && r == ResultOf(w, expected)
    ensures var k, part := EndIndex(items), path + ".part";
      var got := Payload(items[..k]);
      if k < |items| && items[k].End? then
        fs.files == old(fs.files)[path := got] - {part} && r == Written(|got|, expected.Some? && expected.value != |got|)
      else if k == |items| && cancelled then fs.files == old(fs.files)[part := got] && r == Stopped
      else fs.files == old(fs.files) - {part} && r == Aborted
  {
    var tmp: Path, written: nat := PartPath(path), 0;
    ghost var begun := Begin(fs.files, path);
    UndisturbedIsValid(begun, path, items, cancelled);
    fs.files := fs.files[tmp := []];
    var rest := items;
    hide Payload, EndIndex, Undisturbed, ActsValid, AfterActs;
    while rest != [] && !Ends(rest[0])
      invariant tmp in fs.files && ActsValid(Write(fs.files, Receiving, written), path, Undisturbed(rest, cancelled))
      invariant AfterActs(begun, path, Undisturbed(items, cancelled))
             == AfterActs(Write(fs.files, Receiving, written), path, Undisturbed(rest, cancelled))
    {
      UndisturbedSteps(Write(fs.files, Receiving, written), path, rest, cancelled);
      if rest[0].Chunk? {
        fs.files := fs.files[tmp := fs.files[tmp] + rest[0].data];
        written := written + |rest[0].data|;
      }
      rest := rest[1..];
    }
    UndisturbedSteps(Write(fs.files, Receiving, written), path, rest, cancelled);
    if rest != [] && rest[0].End? {
      fs.files := fs.files[path := fs.files[tmp]] - {tmp};
      r := Written(written, expected.Some? && expected.value != written);
    } else if rest == [] && cancelled {
      r := Stopped;
    } else {
      fs.files := fs.files - {tmp};
      r := Aborted;
    }
    assert fs.files == AfterActs(begun, path, Undisturbed(items, cancelled)).files;
    hide ActOn, PartPath;
    UndisturbedOutcome(old(fs.files), [], path, items, cancelled);
    assert [] + Payload(items[..EndIndex(items)]) == Payload(items[..EndIndex(items)]);
  }
}
