/**
 The receiving half of the chunk protocol: one slot remembers the request id of
 the latest stream_chunk_header, and the next binary frame belongs to it.
 hub/ws_router.py, the agent's Session and PeerClient.kt all route this way.
 */
module StreamRouting {
  import opened Prelude

  type Rid = nat

  /** What a consumer of one stream can receive. Note stands for any other text that names a stream. */
  datatype Item = Start | Chunk(data: Bytes) | End | Note(text: string)

  /** What travels on the socket. Other is text that concerns no stream. */
  datatype Frame = Header(rid: Rid) | Binary(data: Bytes) | Text(rid: Rid, item: Item) | Other

  /** The slot, and for every open queue what was put in it since it was opened. */
  datatype Router = Router(slot: Option<Rid>, queues: map<Rid, seq<Item>>)

  function Put(queues: map<Rid, seq<Item>>, rid: Rid, item: Item): map<Rid, seq<Item>> {
    if rid in queues then queues[rid := queues[rid] + [item]] else queues
  }

  function Route(r: Router, f: Frame): Router {
    match f
    case Header(rid) => r.(slot := Some(rid))
    case Binary(data) =>
      Router(None, if r.slot.Some? then Put(r.queues, r.slot.value, Chunk(data)) else r.queues)
    case Text(rid, item) => r.(queues := Put(r.queues, rid, item))
    case Other => r
  }

  /** The slot after a sequence of frames. */
  function SlotAfter(fs: seq<Frame>): Option<Rid> {
    if fs == [] then None
    else match fs[|fs| - 1]
      case Header(rid) => Some(rid)
      case Binary(_) => None
      case _ => SlotAfter(fs[..|fs| - 1])
  }

  /** The item a frame completes when the slot holds slot. */
  function Completes(slot: Option<Rid>, f: Frame): seq<(Rid, Item)> {
    match f
    case Binary(data) => if slot.Some? then [(slot.value, Chunk(data))] else []
    case Text(rid, item) => [(rid, item)]
    case _ => []
  }

  /** Every item a sequence of frames delivers, whoever is listening. */
  function ItemsOf(fs: seq<Frame>): seq<(Rid, Item)> {
    if fs == [] then []
    else ItemsOf(fs[..|fs| - 1]) + Completes(SlotAfter(fs[..|fs| - 1]), fs[|fs| - 1])
  }

  /** The items of one stream. */
  function Project(items: seq<(Rid, Item)>, rid: Rid): seq<Item> {
    if items == [] then []
    else Project(items[..|items| - 1], rid) + (if items[|items| - 1].0 == rid then [items[|items| - 1].1] else [])
  }

  lemma ItemsAppend(fs: seq<Frame>, f: Frame)
    ensures ItemsOf(fs + [f]) == ItemsOf(fs) + Completes(SlotAfter(fs), f)
  {
    assert (fs + [f])[..|fs|] == fs;
  }

  lemma SlotAppend(fs: seq<Frame>, f: Frame)
    ensures SlotAfter(fs + [f]) ==
      match f case Header(rid) => Some(rid) case Binary(_) => None case _ => SlotAfter(fs)
  {
    assert (fs + [f])[..|fs|] == fs;
  }

  lemma {:induction false} ProjectAppend(a: seq<(Rid, Item)>, b: seq<(Rid, Item)>, rid: Rid)
    ensures Project(a + b, rid) == Project(a, rid) + Project(b, rid)
  {
    if b == [] {
      assert a + b == a;
    } else {
      assert (a + b)[..|a + b| - 1] == a + b[..|b| - 1];
      ProjectAppend(a, b[..|b| - 1], rid);
    }
  }

  /** A frame adds to an open queue exactly what it completes for that stream. */
  lemma RouteAdds(r: Router, f: Frame, rid: Rid)
    requires rid in r.queues
    ensures rid in Route(r, f).queues
    ensures Route(r, f).queues[rid] == r.queues[rid] + Project(Completes(r.slot, f), rid)
  {
    CompletesProject(r.slot, f, rid);
  }

  lemma RouteOpensNothing(r: Router, f: Frame, rid: Rid)
    ensures rid in Route(r, f).queues <==> rid in r.queues
  {
  }

  lemma ProjectOne(rid: Rid, item: Item, r: Rid)
    ensures Project([(rid, item)], r) == if r == rid then [item] else []
  {
    assert [(rid, item)][..0] == [];
  }

  /** What one more frame adds to one stream. */
  lemma NextFrameAdds(fs: seq<Frame>, n: nat, rid: Rid)
    requires n < |fs|
    ensures Project(ItemsOf(fs[..n + 1]), rid) ==
      Project(ItemsOf(fs[..n]), rid) + Project(Completes(SlotAfter(fs[..n]), fs[n]), rid)
  {
    assert fs[..n + 1] == fs[..n] + [fs[n]];
    ItemsAppend(fs[..n], fs[n]);
    ProjectAppend(ItemsOf(fs[..n]), Completes(SlotAfter(fs[..n]), fs[n]), rid);
  }

  /** A frame completes at most one item. */
  lemma CompletesProject(slot: Option<Rid>, f: Frame, rid: Rid)
    ensures var out := Completes(slot, f);
      Project(out, rid) == if out != [] && out[0].0 == rid then [out[0].1] else []
  {
    var out := Completes(slot, f);
    if out != [] {
      assert out == [(out[0].0, out[0].1)];
      ProjectOne(out[0].0, out[0].1, rid);
    }
  }

  /** What a prefix of the frames delivers is a prefix of what all of them deliver. */
  lemma {:induction false} ItemsOfPrefix(fs: seq<Frame>, n: nat)
    requires n <= |fs|
    ensures ItemsOf(fs[..n]) <= ItemsOf(fs)
    decreases |fs| - n
  {
    if n == |fs| {
      assert fs[..n] == fs;
    } else {
      assert fs[..n + 1] == fs[..n] + [fs[n]];
      ItemsAppend(fs[..n], fs[n]);
      ItemsOfPrefix(fs, n + 1);
    }
  }

  lemma ProjectPrefix(a: seq<(Rid, Item)>, b: seq<(Rid, Item)>, rid: Rid)
    requires a <= b
    ensures Project(a, rid) <= Project(b, rid)
  {
    assert b == a + b[|a|..];
    ProjectAppend(a, b[|a|..], rid);
  }

  /** The bytes carried by a list of items. */
  function Payload(items: seq<Item>): Bytes {
    if items == [] then []
    else (if items[0].Chunk? then items[0].data else []) + Payload(items[1..])
  }

  lemma {:induction false} PayloadAppend(a: seq<Item>, b: seq<Item>)
    ensures Payload(a + b) == Payload(a) + Payload(b)
  {
    if a == [] {
      assert a + b == b;
    } else {
      assert (a + b)[1..] == a[1..] + b;
      PayloadAppend(a[1..], b);
    }
  }

  lemma PayloadOne(item: Item)
    ensures Payload([item]) == if item.Chunk? then item.data else []
  {
    assert Payload([item][1..]) == [];
  }

  lemma {:induction false} NoPayload(s: seq<Item>)
    requires forall i :: 0 <= i < |s| ==> !s[i].Chunk?
    ensures Payload(s) == []
  {
    if s != [] {
      NoPayload(s[1..]);
    }
  }

  /** Items that carry the given parts, in order. */
  function Chunks(parts: seq<Bytes>): seq<Item> {
    if parts == [] then [] else [Chunk(parts[0])] + Chunks(parts[1..])
  }

  lemma {:induction false} PayloadOfChunks(parts: seq<Bytes>)
    ensures Payload(Chunks(parts)) == Concat(parts)
  {
    if parts != [] {
      assert Chunks(parts)[1..] == Chunks(parts[1..]);
      PayloadOfChunks(parts[1..]);
    }
  }
}
